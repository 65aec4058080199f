/** When allocate succeeds: the free pages against the tables that are missing on the range. */
module Capacity {
  import opened Sv39
  import opened Phys
  import opened PageTable
  import opened ForestChanges
  import opened Allocation

  /** The pages that a new table can be put in. */
  ghost function FreePages(ph: Phys): set<nat>
  {
    set a: nat | a < ph.range && a % PAGE_SIZE == 0 && Gap(ph, a, PAGE_SIZE)
  }

  /** The tables below the root that the walk of page x goes through. */
  ghost function Path(root: nat, x: nat): set<Kind>
  {
    {Table(root, 1, x / 512 / 512), Table(root, 2, x / 512)}
  }

  /** Those of pages q, q + 1, ... q + n - 1. */
  ghost function Paths(root: nat, q: nat, n: nat): (nodes: set<Kind>)
    ensures forall node :: node in nodes ==> node.Table? && node.root == root
  {
    if n == 0 then {} else Paths(root, q, n - 1) + Path(root, q + n - 1)
  }

  ghost predicate Present(ph: Phys, node: Kind)
    requires PhysOk(ph) && node.Table?
  {
    Walk(ph, node.root, node.level, node.prefix) != 0
  }

  /** The tables that pages q, q + 1, ... q + n - 1 of root need and do not have. */
  ghost function Missing(ph: Phys, root: nat, q: nat, n: nat): set<Kind>
    requires PhysOk(ph)
  {
    set node | node in Paths(root, q, n) && !Present(ph, node)
  }

  /** A table position that some page of a root has. */
  ghost predicate Position(k: map<nat, Kind>, node: Kind)
  {
    node.Table? && IsRoot(k, node.root) && 1 <= node.level <= 2 && node.prefix < Width(node.level)
  }

  lemma PathPositions(k: map<nat, Kind>, root: nat, x: nat)
    requires IsRoot(k, root) && x < Width(3)
    ensures forall node :: node in Path(root, x) ==> Position(k, node)
  {
    assert Width(3) == 512 * Width(2) && Width(2) == 512 * Width(1);
  }

  /** A walk finds a table exactly where a block is labelled as that table. */
  lemma PresentIsLabelled(ph: Phys, k: map<nat, Kind>, node: Kind)
    requires PhysOk(ph) && Forest(ph, k) && Position(k, node)
    ensures Present(ph, node) <==> exists b :: b in k && k[b] == node
  {
    hide PhysOk, Forest, Walk, Width, Entry, EntryOk;
    WalkFindsTable(ph, k, node.root, node.level, node.prefix);
    if b :| b in k && k[b] == node {
      TableFacts(ph, k, b);
    }
  }

  /** From ph to ph' the tables at nodes have come, and no others. */
  ghost predicate Gains(ph: Phys, ph': Phys, k: map<nat, Kind>, nodes: set<Kind>)
    requires PhysOk(ph) && PhysOk(ph')
  {
    forall node :: Position(k, node) ==> (Present(ph', node) <==> Present(ph, node) || node in nodes)
  }

  lemma GainsTrans(ph: Phys, ph1: Phys, ph2: Phys, k: map<nat, Kind>, k1: map<nat, Kind>, nodes: set<Kind>,
                   nodes1: set<Kind>)
    requires PhysOk(ph) && PhysOk(ph1) && PhysOk(ph2) && Gains(ph, ph1, k, nodes) && Gains(ph1, ph2, k1, nodes1)
    requires forall b :: b in k ==> b in k1 && k1[b] == k[b]
    ensures Gains(ph, ph2, k, nodes + nodes1)
  {
    hide PhysOk, Present, Width;
    forall node | Position(k, node) ensures Position(k1, node) {}
  }

  /** Labels that only gain one table, or none. */
  lemma LabelsGain(ph: Phys, k: map<nat, Kind>, ph': Phys, k': map<nat, Kind>, nodes: set<Kind>)
    requires PhysOk(ph) && Forest(ph, k) && PhysOk(ph') && Forest(ph', k')
    requires forall b :: b in k ==> b in k' && k'[b] == k[b]
    requires forall b :: b in k' && b !in k ==> k'[b].Data? || k'[b] in nodes
    requires forall node :: node in nodes ==> exists b :: b in k' && k'[b] == node
    ensures Gains(ph, ph', k, nodes)
  {
    hide PhysOk, Forest, Present, Width;
    forall node | Position(k, node) ensures Present(ph', node) <==> Present(ph, node) || node in nodes {
      PresentIsLabelled(ph, k, node);
      PresentIsLabelled(ph', k', node);
    }
  }

  /** What is left of a set of pages without those from p to end. */
  ghost function Outside(s: set<nat>, p: nat, end: nat): set<nat>
  {
    set a | a in s && !(p <= a < end)
  }

  lemma {:induction false} TakePages(s: set<nat>, p: nat, m: nat)
    requires p % PAGE_SIZE == 0 && forall a :: a in s ==> a % PAGE_SIZE == 0
    requires forall a: nat :: p <= a < p + m * PAGE_SIZE && a % PAGE_SIZE == 0 ==> a in s
    ensures |Outside(s, p, p + m * PAGE_SIZE)| == |s| - m
  {
    if m == 0 {
      assert Outside(s, p, p) == s;
    } else {
      TakePages(s, p, m - 1);
      var last := p + (m - 1) * PAGE_SIZE;
      PageStart(p, m - 1);
      TakeOne(s, p, last);
      assert last + PAGE_SIZE == p + m * PAGE_SIZE;
    }
  }

  lemma TakeOne(s: set<nat>, p: nat, last: nat)
    requires p <= last && last % PAGE_SIZE == 0 && last in s && forall a :: a in s ==> a % PAGE_SIZE == 0
    ensures last in Outside(s, p, last) && Outside(s, p, last + PAGE_SIZE) == Outside(s, p, last) - {last}
  {
    forall a | a in s ensures last <= a < last + PAGE_SIZE <==> a == last {
      OnePage(last, a);
    }
  }

  lemma PageStart(p: nat, j: nat)
    requires p % PAGE_SIZE == 0
    ensures (p + j * PAGE_SIZE) % PAGE_SIZE == 0
  {
  }

  lemma OnePage(page: nat, a: nat)
    requires page % PAGE_SIZE == 0 && a % PAGE_SIZE == 0
    ensures page <= a < page + PAGE_SIZE <==> a == page
  {
  }

  /** A page lies inside a block of pages, or beside it. */
  lemma PageOrBeside(p: nat, n: nat, a: nat)
    requires p % PAGE_SIZE == 0 && n % PAGE_SIZE == 0 && a % PAGE_SIZE == 0
    ensures if p <= a < p + n then a + PAGE_SIZE <= p + n else a + PAGE_SIZE <= p || p + n <= a
  {
  }

  /** A new block takes its pages and no others. */
  lemma FreeAfterInsert(ph: Phys, p: nat, n: nat)
    requires Gap(ph, p, n) && p % PAGE_SIZE == 0 && n % PAGE_SIZE == 0 && n > 0 && p !in ph.ext
    ensures |FreePages(Insert(ph, p, n))| == |FreePages(ph)| - n / PAGE_SIZE
  {
    PageCount(n);
    forall a: nat | a % PAGE_SIZE == 0
      ensures a in FreePages(Insert(ph, p, n)) <==> a in FreePages(ph) && !(p <= a < p + n)
      ensures p <= a < p + n ==> a in FreePages(ph)
    {
      PageOrBeside(p, n, a);
      GapAfterInsert(ph, p, n, a);
    }
    hide Insert, Gap;
    assert FreePages(Insert(ph, p, n)) == Outside(FreePages(ph), p, p + n);
    TakePages(FreePages(ph), p, n / PAGE_SIZE);
  }

  lemma GapAfterInsert(ph: Phys, p: nat, n: nat, a: nat)
    requires Gap(ph, p, n) && n > 0 && p !in ph.ext
    ensures Gap(Insert(ph, p, n), a, PAGE_SIZE) <==>
      Gap(ph, a, PAGE_SIZE) && (a + PAGE_SIZE <= p || p + n <= a)
    ensures p <= a && a + PAGE_SIZE <= p + n ==> Gap(ph, a, PAGE_SIZE)
    ensures Insert(ph, p, n).range == ph.range
  {
    var ph' := Insert(ph, p, n);
    assert p in ph'.ext && ph'.ext[p] == n;
    assert forall b :: b in ph.ext ==> b in ph'.ext && ph'.ext[b] == ph.ext[b];
  }

  lemma FreeIsExtent(ph: Phys, ph': Phys)
    requires ph'.ext == ph.ext && ph'.range == ph.range
    ensures FreePages(ph') == FreePages(ph)
  {
    assert forall a: nat :: Gap(ph', a, PAGE_SIZE) <==> Gap(ph, a, PAGE_SIZE);
  }

  lemma SomePageFree(ph: Phys)
    requires PhysOk(ph)
    ensures Usable(ph, PAGE_SIZE) != 0 <==> FreePages(ph) != {}
    ensures Usable(ph, PAGE_SIZE) != 0 ==> LowestFree(ph, Usable(ph, PAGE_SIZE))
    ensures Usable(ph, PAGE_SIZE) != 0 ==>
      Gap(ph, Usable(ph, PAGE_SIZE), PAGE_SIZE) && Usable(ph, PAGE_SIZE) % PAGE_SIZE == 0
  {
    hide Usable, PhysOk;
    var r := Usable(ph, PAGE_SIZE);
    UsableIsLowestGap(ph, PAGE_SIZE, r);
    if r != 0 { assert r in FreePages(ph); }
  }

  /** Memory without blocks: every page above the reserved low range is free. */
  lemma AllFree(ph: Phys)
    requires ph.ext == map[] && ph.range % PAGE_SIZE == 0 && LOW_END < ph.range
    ensures Usable(ph, PAGE_SIZE) == LOW_END && |FreePages(ph)| == (ph.range - LOW_END) / PAGE_SIZE
  {
    var n := ph.range - LOW_END;
    UsableIsLowestGap(ph, PAGE_SIZE, LOW_END);
    FreeAfterInsert(ph, LOW_END, n);
    var full := Insert(ph, LOW_END, n);
    forall a: nat ensures a !in FreePages(full) {
      GapAfterInsert(ph, LOW_END, n, a);
    }
    assert FreePages(full) == {};
  }

  ghost predicate LowestFree(ph: Phys, c: nat)
  {
    c in FreePages(ph) && forall a :: a in FreePages(ph) ==> c <= a
  }

  /** One level step: a missing table costs the lowest free page. */
  lemma EnsureChildCount(ph: Phys, k: map<nat, Kind>, t: nat, i: nat)
    requires PhysOk(ph) && Forest(ph, k) && IsTable(k, t) && k[t].level < 2 && i < 512
    ensures var r, node := EnsureChild(ph, t, i), NodeAt(k, t, i);
      if Present(ph, node) then r.ok && r.ph == ph
      else
        && (r.ok <==> FreePages(ph) != {})
        && (r.ok ==> |FreePages(r.ph)| == |FreePages(ph)| - 1 && Gains(ph, r.ph, k, {node}))
        && (r.ok ==> LowestFree(ph, PTE2PA(Entry(r.ph, t, i))))
  {
    hide PhysOk, Forest, Entry, Link, PTE2PA, SetPTE, Gap, FirstGap, Walk, FreePages, Gains, Usable,
         LowestFree;
    var node := NodeAt(k, t, i);
    EntryInUse(ph, k, t, i);
    NodeParent(ph, k, t, i);
    SomePageFree(ph);
    if !Present(ph, node) {
      var c := Usable(ph, PAGE_SIZE);
      if c != 0 {
        LinkForest(ph, k, t, i, c);
        LabelsGain(ph, k, Link(ph, t, i, c), k[c := node], {node});
        FreeAfterLink(ph, t, i, c);
      }
    }
  }

  lemma FreeAfterLink(ph: Phys, t: nat, i: nat, c: nat)
    requires PhysOk(ph) && Gap(ph, c, PAGE_SIZE) && c % PAGE_SIZE == 0
    ensures |FreePages(Link(ph, t, i, c))| == |FreePages(ph)| - 1
  {
    hide PhysOk, Gap, FreePages, SetPTE;
    InsertValid(ph, c, PAGE_SIZE);
    FreeAfterInsert(ph, c, PAGE_SIZE);
    EntryExtent(Insert(ph, c, PAGE_SIZE), t, i, SetPTE(c, V));
    FreeIsExtent(Insert(ph, c, PAGE_SIZE), Link(ph, t, i, c));
  }

  lemma EntryExtent(ph: Phys, t: nat, i: nat, w: nat)
    ensures SetEntry(ph, t, i, w).ext == ph.ext && SetEntry(ph, t, i, w).range == ph.range
  {
  }

  lemma MissingOnPage(ph: Phys, root: nat, x: nat)
    requires PhysOk(ph)
    ensures var a, b := Table(root, 1, x / 512 / 512), Table(root, 2, x / 512);
      |Missing(ph, root, x, 1)| == (if Present(ph, a) then 0 else 1) + (if Present(ph, b) then 0 else 1)
  {
    hide PhysOk, Present;
    var a, b := Table(root, 1, x / 512 / 512), Table(root, 2, x / 512);
    assert Paths(root, x, 1) == Paths(root, x, 0) + {a, b};
    var m := Missing(ph, root, x, 1);
    assert m == (if Present(ph, a) then {} else {a}) + (if Present(ph, b) then {} else {b});
  }

  /** One turn of the loop succeeds exactly if there is a free page for every table that is missing. */
  lemma MapPageCount(ph: Phys, k: map<nat, Kind>, root: nat, va: nat, pa: nat, p: nat)
    requires PhysOk(ph) && Forest(ph, k) && IsRoot(k, root)
    requires pa % PAGE_SIZE == 0 && pa < MAX_PHY_RANGE && LeafInto(ph, k, root, Vpn(va), pa, p)
    ensures var r, missing := MapPage(ph, root, va, pa), |Missing(ph, root, Vpn(va), 1)|;
      && (r.ok <==> missing <= |FreePages(ph)|)
      && (r.ok ==> |FreePages(r.ph)| + missing == |FreePages(ph)| && Gains(ph, r.ph, k, Path(root, Vpn(va))))
  {
    hide PhysOk, Forest, Entry, KeepsData, PTE2PA, EnsureChild, FillLeaf, LeafInto, Vpn, Width, VAextract, Translate,
         Present, Gains, FreePages, Missing, Path;
    var i0, i1, i2 := VAextract(va, 0), VAextract(va, 1), VAextract(va, 2);
    VpnFields(va);
    VpnLess(va);
    MissingOnPage(ph, root, Vpn(va));
    PathPositions(k, root, Vpn(va));
    PathIs(root, Vpn(va), i0, i1);
    EnsureChildCount(ph, k, root, i0);
    var k1 := EnsureChildForest(ph, k, root, i0);
    var a := EnsureChild(ph, root, i0);
    if a.ok {
      FirstStep(ph, a.ph, k, root, Vpn(va));
      var pt1 := PTE2PA(Entry(a.ph, root, i0));
      EnsureChildCount(a.ph, k1, pt1, i1);
      var k2 := EnsureChildForest(a.ph, k1, pt1, i1);
      var b := EnsureChild(a.ph, pt1, i1);
      if b.ok {
        var pt2 := PTE2PA(Entry(b.ph, pt1, i1));
        LeafIntoGrows(ph, k, b.ph, k2, root, Vpn(va), pa, p);
        FillLeafForest(b.ph, k2, pt2, i2, pa, p);
        FillLeafExtent(b.ph, pt2, i2, pa);
        LastStep(ph, k, a.ph, k1, b.ph, k2, FillLeaf(b.ph, pt2, i2, pa), root, Vpn(va));
      }
    }
  }

  lemma VpnLess(va: nat)
    ensures Vpn(va) < Width(3)
  {
  }

  lemma PathIs(root: nat, x: nat, i0: nat, i1: nat)
    requires i0 == x / 512 / 512 && i1 == x / 512 % 512
    ensures Path(root, x) == {Table(root, 1, i0), Table(root, 2, 512 * i0 + i1)} && 512 * i0 + i1 == x / 512
  {
  }

  lemma FillLeafExtent(ph: Phys, t: nat, i: nat, pa: nat)
    requires PhysOk(ph)
    ensures FillLeaf(ph, t, i, pa).ext == ph.ext && FillLeaf(ph, t, i, pa).range == ph.range
    ensures FreePages(FillLeaf(ph, t, i, pa)) == FreePages(ph)
  {
    hide PhysOk, Entry, SetPTE, FreePages;
    EntryExtent(ph, t, i, SetPTE(pa, RWXV));
    FreeIsExtent(ph, FillLeaf(ph, t, i, pa));
  }

  /** The first level step has nothing to do with the table of the second. */
  lemma FirstStep(ph: Phys, ph1: Phys, k: map<nat, Kind>, root: nat, x: nat)
    requires PhysOk(ph) && PhysOk(ph1) && IsRoot(k, root) && x < Width(3)
    requires var a := Table(root, 1, x / 512 / 512); if Present(ph, a) then ph1 == ph else Gains(ph, ph1, k, {a})
    ensures var a, b := Table(root, 1, x / 512 / 512), Table(root, 2, x / 512);
      (Present(ph1, b) <==> Present(ph, b)) && Gains(ph, ph1, k, {a})
  {
    hide PhysOk, Present, Width;
    PathPositions(k, root, x);
    var b := Table(root, 2, x / 512);
    assert b in Path(root, x) && Position(k, b);
  }

  lemma LastStep(ph: Phys, k: map<nat, Kind>, ph1: Phys, k1: map<nat, Kind>, ph2: Phys, k2: map<nat, Kind>, ph3: Phys,
                 root: nat, x: nat)
    requires PhysOk(ph) && PhysOk(ph1) && PhysOk(ph2) && PhysOk(ph3) && Forest(ph2, k2) && Forest(ph3, k2)
    requires IsRoot(k, root) && x < Width(3)
    requires Grows(ph, k, ph1, k1) && Grows(ph1, k1, ph2, k2) && Gains(ph, ph1, k, {Table(root, 1, x / 512 / 512)})
    requires var b := Table(root, 2, x / 512); if Present(ph1, b) then ph2 == ph1 else Gains(ph1, ph2, k1, {b})
    ensures Gains(ph, ph3, k, Path(root, x))
  {
    hide PhysOk, Forest, Present, Width;
    var a, b := Table(root, 1, x / 512 / 512), Table(root, 2, x / 512);
    LabelsGain(ph2, k2, ph3, k2, {});
    GainsTrans(ph1, ph2, ph3, k1, k2, {b}, {});
    GainsTrans(ph, ph1, ph3, k, k1, {a}, {b} + {});
    assert {a} + ({b} + {}) == Path(root, x);
  }

  /** What page q + n adds to the tables that are missing. */
  lemma MissingNext(ph: Phys, k: map<nat, Kind>, ph1: Phys, root: nat, q: nat, n: nat)
    requires PhysOk(ph) && PhysOk(ph1) && IsRoot(k, root) && q + n < Width(3)
    requires Gains(ph, ph1, k, Paths(root, q, n))
    ensures |Missing(ph, root, q, n + 1)| == |Missing(ph, root, q, n)| + |Missing(ph1, root, q + n, 1)|
  {
    hide PhysOk, Present, Width, Path;
    PathPositions(k, root, q + n);
    assert Paths(root, q + n, 1) == Paths(root, q + n, 0) + Path(root, q + n);
    assert Paths(root, q, n + 1) == Paths(root, q, n) + Path(root, q + n);
    var before, new1, all := Missing(ph, root, q, n), Missing(ph1, root, q + n, 1), Missing(ph, root, q, n + 1);
    forall node ensures node in all <==> node in before || node in new1 {
      if node in Path(root, q + n) { assert Position(k, node); }
    }
    assert all == before + new1 && before !! new1;
  }

  lemma MissingGrows(ph: Phys, root: nat, q: nat, n: nat)
    requires PhysOk(ph)
    ensures |Missing(ph, root, q, n)| <= |Missing(ph, root, q, n + 1)|
  {
    hide PhysOk, Present, Path;
    SubsetSize(Missing(ph, root, q, n), Missing(ph, root, q, n + 1));
  }

  lemma {:induction false} SubsetSize<T>(a: set<T>, b: set<T>)
    requires a <= b
    ensures |a| <= |b|
  {
    if x :| x in a { SubsetSize(a - {x}, b - {x}); }
  }

  lemma NothingMissing(ph: Phys, k: map<nat, Kind>, root: nat, q: nat)
    requires PhysOk(ph)
    ensures Missing(ph, root, q, 0) == {} && Gains(ph, ph, k, Paths(root, q, 0))
  {
    hide PhysOk, Present;
  }

  /** The first n pages of a range succeed exactly if there is a free page for every missing table. */
  lemma {:induction false} MapPagesCount(ph: Phys, k: map<nat, Kind>, root: nat, va: nat, p: nat, n: nat)
    requires PhysOk(ph) && Forest(ph, k) && IsRoot(k, root)
    requires va % PAGE_SIZE == 0 && va + n * PAGE_SIZE <= VA_END
    requires p in k && k[p] == Data(root, va) && InBlock(ph, p, p, n * PAGE_SIZE)
    ensures var r, missing := MapPages(ph, root, va, p, n), |Missing(ph, root, Vpn(va), n)|;
      && (r.ok <==> missing <= |FreePages(ph)|)
      && (r.ok ==> |FreePages(r.ph)| + missing == |FreePages(ph)| && Gains(ph, r.ph, k, Paths(root, Vpn(va), n)))
    decreases n
  {
    hide PhysOk, Forest, KeepsData, MapPage, Translate, Width, PathReady, Vpn, Maps, MapsRange, PagesDone, FreePages,
         Present, Path, Gains, Missing, LeafInto, Position;
    if n == 0 {
      NothingMissing(ph, k, root, Vpn(va));
    } else {
      MapPagesCount(ph, k, root, va, p, n - 1);
      var r := MapPages(ph, root, va, p, n - 1);
      MissingGrows(ph, root, Vpn(va), n - 1);
      if r.ok {
        var k1, m1 := MapPagesForest(ph, k, root, va, p, n - 1);
        var v, pa := va + (n - 1) * PAGE_SIZE, p + (n - 1) * PAGE_SIZE;
        RangePage(va, n - 1);
        VpnLess(v);
        LeafIntoPage(ph, k, r.ph, k1, root, va, p, n);
        MapPageCount(r.ph, k1, root, v, pa, p);
        MissingNext(ph, k, r.ph, root, Vpn(va), n - 1);
        if MapPages(ph, root, va, p, n).ok {
          GainsTrans(ph, r.ph, MapPages(ph, root, va, p, n).ph, k, k1, Paths(root, Vpn(va), n - 1), Path(root, Vpn(v)));
        }
      }
    }
  }

  /** A data block changes neither tables nor what is missing. */
  lemma MissingAfterInsert(ph: Phys, k: map<nat, Kind>, p: nat, n: nat, root: nat, va: nat, q: nat, j: nat)
    requires PhysOk(ph) && Forest(ph, k) && IsRoot(k, root) && q + j <= Width(3)
    requires Gap(ph, p, n) && p % PAGE_SIZE == 0 && n % PAGE_SIZE == 0 && n > 0
    ensures PhysOk(Insert(ph, p, n)) && Missing(Insert(ph, p, n), root, q, j) == Missing(ph, root, q, j)
  {
    hide PhysOk, Forest, Present, Width, Gap, Insert;
    InsertForest(ph, k, p, n, Data(root, va));
    LabelsGain(ph, k, Insert(ph, p, n), k[p := Data(root, va)], {});
    PathsPositions(k, root, q, j);
  }

  lemma {:induction false} PathsPositions(k: map<nat, Kind>, root: nat, q: nat, n: nat)
    requires IsRoot(k, root) && q + n <= Width(3)
    ensures forall node :: node in Paths(root, q, n) ==> Position(k, node)
  {
    hide Width, Path;
    if n > 0 {
      PathsPositions(k, root, q, n - 1);
      PathPositions(k, root, q + n - 1);
    }
  }

  /** How far allocate gets: to page j exactly if, with the block, the missing tables of the first j
      pages find free pages. */
  lemma AllocateReaches(ph: Phys, k: map<nat, Kind>, root: nat, va: nat, length: nat, k': map<nat, Kind>, p: nat,
                        m: nat, j: nat)
    requires PhysOk(ph) && Forest(ph, k) && IsRoot(k, root)
    requires va % PAGE_SIZE == 0 && length > 0 && va + RoundUp(length) <= VA_END
    requires Allocated(ph, k, root, va, length, k', p, m) && p != 0 && j <= RoundUp(length) / PAGE_SIZE
    ensures j <= m <==>
      RoundUp(length) / PAGE_SIZE + |Missing(ph, root, Vpn(va), j)| <= |FreePages(ph)|
  {
    hide PhysOk, Forest, KeepsData, MapPages, MapPage, Translate, Width, Vpn, Usable, Gap, FreePages, Missing, Gains,
         MapsRange, RoundUp, Insert, Allocate;
    var n := RoundUp(length);
    WholeBlock(ph, p, n);
    InsertForest(ph, k, p, n, Data(root, va));
    InsertedBlock(ph, p, n, j);
    RangeEnd(va, n, j);
    MapPagesCount(Insert(ph, p, n), k[p := Data(root, va)], root, va, p, j);
    MissingAfterInsert(ph, k, p, n, root, va, Vpn(va), j);
    NotBacked(ph, p, n);
    FreeAfterInsert(ph, p, n);
  }

  lemma WholeBlock(ph: Phys, p: nat, n: nat)
    requires n > 0 && p == Usable(ph, n) != 0
    ensures p % PAGE_SIZE == 0 && Gap(ph, p, n)
  {
    hide Gap, Usable;
    UsableIsLowestGap(ph, n, p);
  }

  lemma NotBacked(ph: Phys, p: nat, n: nat)
    requires PhysOk(ph) && Gap(ph, p, n) && n > 0
    ensures p !in ph.ext
  {
  }

  lemma InsertedBlock(ph: Phys, p: nat, n: nat, j: nat)
    requires n % PAGE_SIZE == 0 && j <= n / PAGE_SIZE
    ensures InBlock(Insert(ph, p, n), p, p, j * PAGE_SIZE)
  {
  }

  lemma RangeEnd(va: nat, n: nat, j: nat)
    requires va % PAGE_SIZE == 0 && n % PAGE_SIZE == 0 && va + n <= VA_END && j <= n / PAGE_SIZE && n > 0
    ensures va + j * PAGE_SIZE <= VA_END && Vpn(va) + j <= Width(3)
  {
    assert Width(3) == 512 * Width(2) && Width(2) == 512 * Width(1);
  }

  /** There is a gap for a block of that length, and besides its pages a free one for each table that
      the range lacks. */
  ghost predicate Suffices(ph: Phys, root: nat, va: nat, length: nat)
    requires PhysOk(ph) && length > 0
  {
    var pages := RoundUp(length) / PAGE_SIZE;
    Usable(ph, RoundUp(length)) != 0 && pages + |Missing(ph, root, Vpn(va), pages)| <= |FreePages(ph)|
  }

  /** allocate succeeds exactly if there is a gap for the block, and besides the block's pages a free
      one for each table that the range lacks. */
  lemma AllocateSucceeds(ph: Phys, k: map<nat, Kind>, root: nat, va: nat, length: nat)
    requires PhysOk(ph) && Forest(ph, k) && IsRoot(k, root)
    requires va % PAGE_SIZE == 0 && length > 0 && va + RoundUp(length) <= VA_END
    ensures Allocate(ph, root, va, length).1 != 0 <==> Suffices(ph, root, va, length)
  {
    hide PhysOk, Forest, KeepsData, Usable, Gap, FreePages, Missing, MapsRange, RoundUp, Allocate, PagesDone, Vpn;
    var k', p, m := AllocateForest(ph, k, root, va, length);
    if p != 0 {
      AllocateReaches(ph, k, root, va, length, k', p, m, RoundUp(length) / PAGE_SIZE);
    }
  }

  /** allocate takes the block and then finds no room for the tables that its first page lacks. */
  ghost predicate Strands(ph: Phys, root: nat, va: nat, length: nat)
    requires PhysOk(ph) && length > 0
  {
    && Usable(ph, RoundUp(length)) != 0
    && |FreePages(ph)| < RoundUp(length) / PAGE_SIZE + |Missing(ph, root, Vpn(va), 1)|
  }

  lemma StrandsWithoutPages(ph: Phys, k: map<nat, Kind>, root: nat, va: nat, length: nat, k': map<nat, Kind>, p: nat,
                            m: nat)
    requires PhysOk(ph) && Forest(ph, k) && IsRoot(k, root)
    requires va % PAGE_SIZE == 0 && length > 0 && va + RoundUp(length) <= VA_END
    requires Allocated(ph, k, root, va, length, k', p, m)
    ensures Strands(ph, root, va, length) <==> p != 0 && m == 0
  {
    hide PhysOk, Forest, KeepsData, Usable, Gap, FreePages, Missing, MapsRange, RoundUp, Allocate, PagesDone, Vpn;
    PageCount(RoundUp(length));
    if p != 0 { AllocateReaches(ph, k, root, va, length, k', p, m, 1); }
  }
}
