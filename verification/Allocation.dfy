/** Memory::allocate as a function on memory, redoing all three table lookups for
    every page, and what it guarantees. */
module Allocation {
  import opened Sv39
  import opened Phys
  import opened PageTable
  import opened ForestChanges
  import Words

  datatype Outcome = Outcome(ph: Phys, ok: bool)

  /** Largest virtual address that 27 page-number bits and the offset can name. */
  const VA_END: nat := 0x80_0000_0000

  lemma LinkValid(ph: Phys, t: nat, i: nat, c: nat)
    requires PhysOk(ph) && Gap(ph, c, PAGE_SIZE)
    ensures PhysOk(Link(ph, t, i, c))
  {
    hide PhysOk, Gap, Insert, Poke;
    InsertValid(ph, c, PAGE_SIZE);
    SetEntryValid(Insert(ph, c, PAGE_SIZE), t, i, SetPTE(c, V));
  }

  lemma SetEntryValid(ph: Phys, t: nat, i: nat, w: nat)
    requires PhysOk(ph)
    ensures PhysOk(SetEntry(ph, t, i, w))
  {
    PokeValid(ph, t + 8 * i, Words.Encode(w, 8));
  }

  /** Make entry i of table t point at a table, taking a free page if it does not. */
  ghost function EnsureChild(ph: Phys, t: nat, i: nat): (r: Outcome)
    requires PhysOk(ph)
    ensures PhysOk(r.ph)
  {
    if Entry(ph, t, i) % 2 == 1 then Outcome(ph, true) else
    var c := Usable(ph, PAGE_SIZE);
    if c == 0 then Outcome(ph, false) else
    LinkValid(ph, t, i, c);
    Outcome(Link(ph, t, i, c), true)
  }

  ghost function FillLeaf(ph: Phys, t: nat, i: nat, pa: nat): (ph': Phys)
    requires PhysOk(ph)
    ensures PhysOk(ph')
  {
    if Entry(ph, t, i) % 2 == 1 then ph else
    SetEntryValid(ph, t, i, SetPTE(pa, RWXV));
    SetEntry(ph, t, i, SetPTE(pa, RWXV))
  }

  ghost function MapPage(ph: Phys, root: nat, va: nat, pa: nat): (r: Outcome)
    requires PhysOk(ph)
    ensures PhysOk(r.ph)
  {
    var a := EnsureChild(ph, root, VAextract(va, 0));
    if !a.ok then a else
    var pt1 := PTE2PA(Entry(a.ph, root, VAextract(va, 0)));
    var b := EnsureChild(a.ph, pt1, VAextract(va, 1));
    if !b.ok then b else
    var pt2 := PTE2PA(Entry(b.ph, pt1, VAextract(va, 1)));
    Outcome(FillLeaf(b.ph, pt2, VAextract(va, 2), pa), true)
  }

  /** The first n pages of a range. */
  ghost function MapPages(ph: Phys, root: nat, va: nat, pa: nat, n: nat): (r: Outcome)
    requires PhysOk(ph)
    ensures PhysOk(r.ph)
    decreases n
  {
    if n == 0 then Outcome(ph, true) else
    var r := MapPages(ph, root, va, pa, n - 1);
    if !r.ok then r else MapPage(r.ph, root, va + (n - 1) * PAGE_SIZE, pa + (n - 1) * PAGE_SIZE)
  }

  /** The new memory and the physical address, 0 for failure. */
  ghost function Allocate(ph: Phys, root: nat, va: nat, length: nat): (r: (Phys, nat))
    requires PhysOk(ph) && length > 0
    ensures PhysOk(r.0)
  {
    var n := RoundUp(length);
    var p := Usable(ph, n);
    if p == 0 then (ph, 0) else
    InsertValid(ph, p, n);
    var r := MapPages(Insert(ph, p, n), root, va, p, n / PAGE_SIZE);
    (r.ph, if r.ok then p else 0)
  }

  /** k' only adds tables of `root` to k. */
  ghost predicate AddsTables(k: map<nat, Kind>, k': map<nat, Kind>, root: nat)
  {
    forall b :: b in k' && b !in k ==> k'[b].Table? && k'[b].root == root
  }

  lemma EnsureChildForest(ph: Phys, k: map<nat, Kind>, t: nat, i: nat) returns (k': map<nat, Kind>)
    requires PhysOk(ph) && Forest(ph, k) && IsTable(k, t) && k[t].level < 2 && i < 512
    ensures var r := EnsureChild(ph, t, i);
      && Forest(r.ph, k') && SameTranslations(ph, r.ph, k) && Grows(ph, k, r.ph, k') && KeepsData(ph, r.ph, k)
      && AddsTables(k, k', k[t].root)
      && (r.ok ==> var c := PTE2PA(Entry(r.ph, t, i));
          Entry(r.ph, t, i) % 2 == 1 && IsTable(k', c) && k'[c] == NodeAt(k, t, i))
      && (forall b: nat, j: nat :: IsTable(k, b) && j < 512 && (b != t || j != i) ==>
           Entry(r.ph, b, j) == Entry(ph, b, j))
      && (Entry(ph, t, i) % 2 == 1 ==> r.ph == ph && r.ok)
  {
    hide PhysOk, Forest, Entry, KeepsData, SameTranslations, Link, PTE2PA, SetPTE, Gap, FirstGap;
    EntryInUse(ph, k, t, i);
    k' := k;
    KeepsDataRefl(ph, k);
    SameTranslationsRefl(ph, k);
    if Entry(ph, t, i) % 2 != 1 {
      var c := Usable(ph, PAGE_SIZE);
      if c != 0 {
        LinkForest(ph, k, t, i, c);
        LinkKeepsData(ph, k, t, i, c);
        PteIsOdd(c, V);
        k' := k[c := NodeAt(k, t, i)];
      }
    }
  }

  lemma KeepsDataRefl(ph: Phys, k: map<nat, Kind>)
    requires PhysOk(ph)
    ensures KeepsData(ph, ph, k)
  {
  }

  lemma SameTranslationsRefl(ph: Phys, k: map<nat, Kind>)
    requires PhysOk(ph)
    ensures SameTranslations(ph, ph, k)
  {
  }

  /** The three entries that translate va are in use. */
  ghost predicate PathReady(ph: Phys, root: nat, va: nat)
    requires PhysOk(ph)
  {
    var pt1 := PTE2PA(Entry(ph, root, VAextract(va, 0)));
    var pt2 := PTE2PA(Entry(ph, pt1, VAextract(va, 1)));
    && Entry(ph, root, VAextract(va, 0)) % 2 == 1
    && Entry(ph, pt1, VAextract(va, 1)) % 2 == 1
    && Entry(ph, pt2, VAextract(va, 2)) % 2 == 1
  }

  /** One page of root has been added to the translations, if it was free and `done`. */
  ghost predicate Maps(ph: Phys, ph': Phys, k: map<nat, Kind>, root: nat, q: nat, pa: nat, done: bool)
    requires PhysOk(ph) && PhysOk(ph')
  {
    forall r, x: nat :: IsRoot(k, r) && x < Width(3) ==>
      Translate(ph', r, x) ==
        if done && r == root && x == q && Translate(ph, r, x) == 0 then pa else Translate(ph, r, x)
  }

  /** What a growing step of allocate keeps. */
  ghost predicate Progress(ph: Phys, k: map<nat, Kind>, ph': Phys, k': map<nat, Kind>, root: nat)
  {
    && PhysOk(ph) && PhysOk(ph') && Forest(ph', k') && Grows(ph, k, ph', k')
    && KeepsData(ph, ph', k) && AddsTables(k, k', root)
  }

  lemma ProgressTrans(ph: Phys, k: map<nat, Kind>, ph1: Phys, k1: map<nat, Kind>, ph2: Phys, k2: map<nat, Kind>,
                      root: nat)
    requires Progress(ph, k, ph1, k1, root) && Progress(ph1, k1, ph2, k2, root)
    ensures Progress(ph, k, ph2, k2, root)
  {
    hide PhysOk, Forest, KeepsData;
    KeepsDataTrans(ph, ph1, ph2, k, k1);
  }

  lemma FillLeafForest(ph: Phys, k: map<nat, Kind>, t: nat, i: nat, pa: nat, p: nat)
    requires PhysOk(ph) && Forest(ph, k) && IsTable(k, t) && k[t].level == 2 && i < 512
    requires pa % PAGE_SIZE == 0 && pa < MAX_PHY_RANGE && LeafInto(ph, k, k[t].root, 512 * k[t].prefix + i, pa, p)
    ensures var ph' := FillLeaf(ph, t, i, pa);
      && Progress(ph, k, ph', k, k[t].root) && Entry(ph', t, i) % 2 == 1
      && Maps(ph, ph', k, k[t].root, 512 * k[t].prefix + i, pa, true)
      && (forall b: nat, j: nat :: IsTable(k, b) && j < 512 && (b != t || j != i) ==>
           Entry(ph', b, j) == Entry(ph, b, j))
  {
    hide PhysOk, Forest, Entry, KeepsData, PTE2PA, SetPTE, SetEntry, LeafInto, Translate;
    EntryInUse(ph, k, t, i);
    KeepsDataRefl(ph, k);
    LeafTranslation(ph, k, t, i);
    if Entry(ph, t, i) % 2 != 1 {
      LeafForest(ph, k, t, i, pa, p);
      LeafWord(pa);
      PteIsOdd(pa, RWXV);
      TableFacts(ph, k, t);
      SetEntryKeepsData(ph, k, t, i, SetPTE(pa, RWXV));
      SetEntryEffect(ph, k, t, i, SetPTE(pa, RWXV));
    }
  }

  lemma LeafTranslation(ph: Phys, k: map<nat, Kind>, t: nat, i: nat)
    requires PhysOk(ph) && Forest(ph, k) && IsTable(k, t) && k[t].level == 2 && i < 512
    ensures Translate(ph, k[t].root, 512 * k[t].prefix + i) == PTE2PA(Entry(ph, t, i))
  {
    hide Walk, Entry, Forest, PTE2PA, PhysOk;
    NodeParent(ph, k, t, i);
  }

  lemma MapPageForest(ph: Phys, k: map<nat, Kind>, root: nat, va: nat, pa: nat, p: nat) returns (k': map<nat, Kind>)
    requires PhysOk(ph) && Forest(ph, k) && IsRoot(k, root)
    requires pa % PAGE_SIZE == 0 && pa < MAX_PHY_RANGE && LeafInto(ph, k, root, Vpn(va), pa, p)
    ensures var r := MapPage(ph, root, va, pa);
      && Progress(ph, k, r.ph, k', root) && Maps(ph, r.ph, k, root, Vpn(va), pa, r.ok)
      && (r.ok ==> PathReady(r.ph, root, va))
  {
    hide PhysOk, Forest, Entry, KeepsData, PTE2PA, EnsureChild, FillLeaf, LeafInto, Vpn, Width, VAextract, Translate;
    var i0, i1, i2 := VAextract(va, 0), VAextract(va, 1), VAextract(va, 2);
    VpnFields(va);
    var k1 := EnsureChildForest(ph, k, root, i0);
    var a := EnsureChild(ph, root, i0);
    k' := k1;
    if a.ok {
      var pt1 := PTE2PA(Entry(a.ph, root, i0));
      var k2 := EnsureChildForest(a.ph, k1, pt1, i1);
      var b := EnsureChild(a.ph, pt1, i1);
      k' := k2;
      ProgressTrans(ph, k, a.ph, k1, b.ph, k2, root);
      if b.ok {
        var pt2 := PTE2PA(Entry(b.ph, pt1, i1));
        LeafIntoGrows(ph, k, b.ph, k2, root, Vpn(va), pa, p);
        FillLeafForest(b.ph, k2, pt2, i2, pa, p);
        ProgressTrans(ph, k, b.ph, k2, FillLeaf(b.ph, pt2, i2, pa), k2, root);
      }
    }
  }

  lemma LeafIntoGrows(ph: Phys, k: map<nat, Kind>, ph': Phys, k': map<nat, Kind>, r: nat, q: nat, pa: nat, p: nat)
    requires Grows(ph, k, ph', k') && LeafInto(ph, k, r, q, pa, p)
    ensures LeafInto(ph', k', r, q, pa, p)
  {
  }

  /** Pages q, q + 1, ... q + m - 1 of root now map to consecutive pages from pa, where they were free. */
  ghost predicate MapsRange(ph: Phys, ph': Phys, k: map<nat, Kind>, root: nat, q: nat, pa: nat, m: nat)
    requires PhysOk(ph) && PhysOk(ph')
  {
    forall r, x: nat :: IsRoot(k, r) && x < Width(3) ==>
      Translate(ph', r, x) ==
        if r == root && q <= x < q + m && Translate(ph, r, x) == 0 then pa + (x - q) * PAGE_SIZE
        else Translate(ph, r, x)
  }

  lemma RangePage(va: nat, j: nat)
    requires va % PAGE_SIZE == 0 && va + j * PAGE_SIZE < VA_END
    ensures Vpn(va + j * PAGE_SIZE) == Vpn(va) + j && Vpn(va) == va / PAGE_SIZE
  {
    assert (va + j * PAGE_SIZE) / 4096 == va / 4096 + j;
  }

  lemma MapsRangeStep(ph: Phys, k: map<nat, Kind>, ph1: Phys, k1: map<nat, Kind>, ph2: Phys,
                      root: nat, q: nat, pa: nat, m: nat, done: bool)
    requires PhysOk(ph) && PhysOk(ph1) && PhysOk(ph2) && MapsRange(ph, ph1, k, root, q, pa, m)
    requires Maps(ph1, ph2, k1, root, q + m, pa + m * PAGE_SIZE, done) && Grows(ph, k, ph1, k1)
    ensures MapsRange(ph, ph2, k, root, q, pa, if done then m + 1 else m)
  {
    hide PhysOk, Translate, Width;
  }

  /** Of the first n pages of a range exactly m can be mapped before the loop stops. */
  ghost predicate PagesDone(ph: Phys, root: nat, va: nat, p: nat, n: nat, m: nat)
    requires PhysOk(ph)
  {
    forall j: nat :: j <= n ==> (MapPages(ph, root, va, p, j).ok <==> j <= m)
  }

  /** The first n pages of a range: how far it got, m pages, and what that changed. */
  lemma {:induction false} MapPagesForest(ph: Phys, k: map<nat, Kind>, root: nat, va: nat, p: nat, n: nat)
    returns (k': map<nat, Kind>, m: nat)
    requires PhysOk(ph) && Forest(ph, k) && IsRoot(k, root)
    requires va % PAGE_SIZE == 0 && va + n * PAGE_SIZE <= VA_END
    requires p in k && k[p] == Data(root, va) && InBlock(ph, p, p, n * PAGE_SIZE)
    ensures var r := MapPages(ph, root, va, p, n);
      && Progress(ph, k, r.ph, k', root) && m <= n && (r.ok <==> m == n)
      && MapsRange(ph, r.ph, k, root, Vpn(va), p, m) && PagesDone(ph, root, va, p, n, m)
      && (r.ok && n > 0 ==> PathReady(r.ph, root, va + (n - 1) * PAGE_SIZE))
    decreases n
  {
    hide PhysOk, Forest, KeepsData, MapPage, Translate, Width, PathReady, Vpn, Maps;
    if n == 0 {
      k', m := k, 0;
      KeepsDataRefl(ph, k);
    } else {
      var k1, m1 := MapPagesForest(ph, k, root, va, p, n - 1);
      var r := MapPages(ph, root, va, p, n - 1);
      k', m := k1, m1;
      if r.ok {
        var v, pa := va + (n - 1) * PAGE_SIZE, p + (n - 1) * PAGE_SIZE;
        RangePage(va, n - 1);
        LeafIntoPage(ph, k, r.ph, k1, root, va, p, n);
        k' := MapPageForest(r.ph, k1, root, v, pa, p);
        var r' := MapPage(r.ph, root, v, pa);
        ProgressTrans(ph, k, r.ph, k1, r'.ph, k', root);
        MapsRangeStep(ph, k, r.ph, k1, r'.ph, root, Vpn(va), p, m1, r'.ok);
        m := if r'.ok then n else n - 1;
      }
    }
  }

  lemma LeafIntoPage(ph: Phys, k: map<nat, Kind>, ph1: Phys, k1: map<nat, Kind>, root: nat, va: nat, p: nat, n: nat)
    requires Forest(ph, k) && Grows(ph, k, ph1, k1) && p in k
    requires k[p] == Data(root, va) && InBlock(ph, p, p, n * PAGE_SIZE)
    requires n > 0 && va % PAGE_SIZE == 0 && va + n * PAGE_SIZE <= VA_END
    ensures var q, pa := Vpn(va + (n - 1) * PAGE_SIZE), p + (n - 1) * PAGE_SIZE;
      LeafInto(ph1, k1, root, q, pa, p) && pa % PAGE_SIZE == 0 && pa < MAX_PHY_RANGE
  {
    hide TableOk, PhysOk, Vpn;
    RangePage(va, n - 1);
    PageOfBlock(ph, p, n);
  }

  lemma PageOfBlock(ph: Phys, p: nat, n: nat)
    requires PhysOk(ph) && Paged(ph) && n > 0 && InBlock(ph, p, p, n * PAGE_SIZE)
    ensures var a := p + (n - 1) * PAGE_SIZE; InBlock(ph, p, a, PAGE_SIZE) && a % PAGE_SIZE == 0 && a < MAX_PHY_RANGE
  {
  }

  /** What allocate does to a forest, on every outcome. On success p is a block that was
      free, holds zeros, and every page of the range that was unmapped now maps into it.
      On failure the first m pages of the range may have been mapped into a block that was
      free; nothing that was mapped before has changed. */
  ghost predicate Allocated(ph: Phys, k: map<nat, Kind>, root: nat, va: nat, length: nat, k': map<nat, Kind>, p: nat,
                            m: nat)
    requires PhysOk(ph) && length > 0
  {
    var n, (ph', result) := RoundUp(length), Allocate(ph, root, va, length);
    && p == Usable(ph, n) && PhysOk(ph') && Forest(ph', k') && Grows(ph, k, ph', k') && KeepsData(ph, ph', k)
    && (result == 0 || result == p)
    && (p == 0 ==> ph' == ph && k' == k && m == 0)
    && (p != 0 ==>
        && Gap(ph, p, n) && PhysOk(Insert(ph, p, n)) && PagesDone(Insert(ph, p, n), root, va, p, n / PAGE_SIZE, m)
        && p !in k && p in k' && k'[p] == Data(root, va) && InBlock(ph', p, p, n) && ph'.ext[p] == n
        && (forall b :: b in k' && b !in k && b != p ==> k'[b].Table? && k'[b].root == root)
        && forall a: nat :: p <= a < p + n ==> a in ph'.data && ph'.data[a] == 0)
    && MapsRange(ph, ph', k, root, Vpn(va), p, m) && m <= n / PAGE_SIZE
    && (result != 0 <==> p != 0 && m == n / PAGE_SIZE)
  }

  lemma AllocateForest(ph: Phys, k: map<nat, Kind>, root: nat, va: nat, length: nat)
    returns (k': map<nat, Kind>, p: nat, m: nat)
    requires PhysOk(ph) && Forest(ph, k) && IsRoot(k, root)
    requires va % PAGE_SIZE == 0 && length > 0 && va + RoundUp(length) <= VA_END
    ensures Allocated(ph, k, root, va, length, k', p, m)
  {
    hide PhysOk, Forest, KeepsData, MapPages, Translate, Width, Vpn, PathReady, FirstGap;
    var n := RoundUp(length);
    p := Usable(ph, n);
    if p == 0 {
      k', m := k, 0;
      KeepsDataRefl(ph, k);
      PageCount(n);
    } else {
      var ph1, k1 := Insert(ph, p, n), k[p := Data(root, va)];
      InsertForest(ph, k, p, n, Data(root, va));
      InsertKeepsData(ph, k, p, n);
      PageCount(n);
      k', m := MapPagesForest(ph1, k1, root, va, p, n / PAGE_SIZE);
      var r := MapPages(ph1, root, va, p, n / PAGE_SIZE);
      KeepsDataTrans(ph, ph1, r.ph, k, k1);
      MapsRangeAfterInsert(ph, k, ph1, k1, r.ph, root, Vpn(va), p, m);
      FreshZeros(ph, p, n, r.ph, k1);
    }
  }

  lemma PageCount(n: nat)
    requires n % PAGE_SIZE == 0 && n > 0
    ensures n / PAGE_SIZE * PAGE_SIZE == n && n / PAGE_SIZE > 0
  {
  }

  lemma MapsRangeAfterInsert(ph: Phys, k: map<nat, Kind>, ph1: Phys, k1: map<nat, Kind>, ph2: Phys, root: nat,
                             q: nat, pa: nat, m: nat)
    requires PhysOk(ph) && PhysOk(ph1) && PhysOk(ph2) && SameTranslations(ph, ph1, k) && Grows(ph, k, ph1, k1)
    requires MapsRange(ph1, ph2, k1, root, q, pa, m)
    ensures MapsRange(ph, ph2, k, root, q, pa, m)
  {
    hide PhysOk, Translate, Width;
  }

  lemma FreshZeros(ph: Phys, p: nat, n: nat, ph2: Phys, k1: map<nat, Kind>)
    requires PhysOk(ph) && Gap(ph, p, n) && p in k1 && k1[p].Data? && KeepsData(Insert(ph, p, n), ph2, k1)
    ensures forall a: nat :: p <= a < p + n ==> a in ph2.data && ph2.data[a] == 0
  {
    hide PhysOk;
  }

  /** The law of allocate: it maps the whole range to consecutive bytes of the returned block
      exactly when none of the range was mapped before. */
  lemma AllocateMapsRange(ph: Phys, k: map<nat, Kind>, root: nat, va: nat, length: nat)
    requires PhysOk(ph) && Forest(ph, k) && IsRoot(k, root)
    requires va % PAGE_SIZE == 0 && length > 0 && va + RoundUp(length) <= VA_END
    requires Allocate(ph, root, va, length).1 != 0
    ensures var (ph', p) := Allocate(ph, root, va, length);
      (forall x: nat :: va <= x < va + RoundUp(length) ==> Convert(ph', root, x) == p + (x - va))
      <==> (forall x: nat :: va <= x < va + RoundUp(length) ==> Convert(ph, root, x) == 0)
  {
    hide Forest, Allocate, Translate, Width, Convert, PhysOk, Usable, KeepsData, Vpn;
    var (ph', p) := Allocate(ph, root, va, length);
    var k', p', m := AllocateForest(ph, k, root, va, length);
    forall x: nat | va <= x < va + RoundUp(length)
      ensures Convert(ph', root, x) == p + (x - va) <==> Convert(ph, root, x) == 0
    {
      AllocateMapsByte(ph, k, ph', k', root, va, p, RoundUp(length), m, x - va);
    }
    var n := RoundUp(length);
    if forall x: nat :: va <= x < va + n ==> Convert(ph', root, x) == p + (x - va) {
      forall x: nat | va <= x < va + n ensures Convert(ph, root, x) == 0 {
        assert Convert(ph', root, x) == p + (x - va);
      }
    }
  }

  lemma AllocateMapsByte(ph: Phys, k: map<nat, Kind>, ph': Phys, k': map<nat, Kind>,
                         root: nat, va: nat, p: nat, n: nat, m: nat, i: nat)
    requires PhysOk(ph) && PhysOk(ph') && Forest(ph, k) && Forest(ph', k') && IsRoot(k, root) && Grows(ph, k, ph', k')
    requires va % PAGE_SIZE == 0 && va + n <= VA_END && n % PAGE_SIZE == 0 && m == n / PAGE_SIZE && i < n
    requires MapsRange(ph, ph', k, root, Vpn(va), p, m) && p != 0 && Gap(ph, p, n)
    requires p in k' && k'[p] == Data(root, va) && p !in k
    ensures Convert(ph', root, va + i) == p + i <==> Convert(ph, root, va + i) == 0
  {
    hide Forest, Translate, Convert, Width, Gap;
    ConvertIsWalk(ph, root, va + i);
    ConvertIsWalk(ph', root, va + i);
    ByteInPage(va, n, i);
    var q := Vpn(va + i);
    if Translate(ph, root, q) != 0 {
      OldTargetOutside(ph, k, root, q, p, n);
    }
  }

  lemma ByteInPage(va: nat, n: nat, i: nat)
    requires va % PAGE_SIZE == 0 && va + n <= VA_END && n % PAGE_SIZE == 0 && i < n
    ensures Vpn(va) <= Vpn(va + i) < Vpn(va) + n / PAGE_SIZE && Vpn(va + i) < Width(3)
    ensures (Vpn(va + i) - Vpn(va)) * PAGE_SIZE + (va + i) % PAGE_SIZE == i
  {
    assert (va + i) / 4096 == va / 4096 + i / 4096;
  }

  /** A page that was mapped lies in a block that was backed, so not in a gap. */
  lemma OldTargetOutside(ph: Phys, k: map<nat, Kind>, root: nat, q: nat, p: nat, n: nat)
    requires PhysOk(ph) && Forest(ph, k) && IsRoot(k, root) && q < Width(3)
    requires Translate(ph, root, q) != 0 && Gap(ph, p, n)
    ensures var pa := Translate(ph, root, q); pa + PAGE_SIZE <= p || p + n <= pa
  {
    hide Translate, Width;
    TranslateFindsData(ph, k, root, q);
    var b: nat :| LeafInto(ph, k, root, q, Translate(ph, root, q), b);
  }

  /** After a failure nothing more happens. */
  lemma {:induction false} MapPagesStops(ph: Phys, root: nat, va: nat, pa: nat, i: nat, n: nat)
    requires PhysOk(ph) && i <= n && !MapPages(ph, root, va, pa, i).ok
    ensures MapPages(ph, root, va, pa, n) == MapPages(ph, root, va, pa, i)
    decreases n
  {
    hide PhysOk, MapPage;
    if i < n {
      MapPagesStops(ph, root, va, pa, i, n - 1);
    }
  }

  lemma EnsureChildPaged(ph: Phys, t: nat, i: nat)
    requires PhysOk(ph) && Paged(ph)
    ensures Paged(EnsureChild(ph, t, i).ph)
  {
  }

  /** From one page to the next, every lower index changes whenever a higher one does. */
  lemma NextPageIndices(va: nat)
    requires va + PAGE_SIZE < VA_END
    ensures VAextract(va + PAGE_SIZE, 1) == VAextract(va, 1) ==> VAextract(va + PAGE_SIZE, 0) == VAextract(va, 0)
    ensures VAextract(va + PAGE_SIZE, 2) != VAextract(va, 2)
  {
    var q := va / 4096;
    assert (va + 4096) / 4096 == q + 1;
    assert va / 0x20_0000 == q / 512 && va / 0x4000_0000 == q / 512 / 512;
    assert (va + 4096) / 0x20_0000 == (q + 1) / 512 && (va + 4096) / 0x4000_0000 == (q + 1) / 512 / 512;
    var u, u' := q / 512, (q + 1) / 512;
    assert u' == u || u' == u + 1;
  }
}
