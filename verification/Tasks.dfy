/** The driver's state as a value: the memory, the page-table root of each task, and the
    ranges handed out to it; what each call does to the views that tasks have of memory. */
module Tasks {
  import opened Options
  import opened Sequences
  import opened Words
  import opened Sv39
  import opened Phys
  import opened PageTable
  import opened ForestChanges
  import opened Allocation
  import opened Capacity
  import opened VirtualMemory
  import opened Pruning
  import opened TearDown
  import AR = AddressRanges

  datatype State = State(ph: Phys, k: map<nat, Kind>, roots: map<nat, nat>, ranges: map<nat, seq<AR.Range>>)

  /** Page q lies in a range rounded up to pages. */
  ghost predicate CoversPage(x: AR.Range, q: nat)
  {
    x.vaddr <= q * PAGE_SIZE < x.After()
  }

  ghost predicate SomeRangeCovers(r: seq<AR.Range>, q: nat)
  {
    exists i :: 0 <= i < |r| && CoversPage(r[i], q)
  }

  /** A task has pages only where it was given a range. */
  ghost predicate Covered(ph: Phys, root: nat, r: seq<AR.Range>)
    requires PhysOk(ph)
  {
    forall q: nat :: q < Width(3) && Translate(ph, root, q) != 0 ==> SomeRangeCovers(r, q)
  }

  ghost predicate TaskOk(s: State, t: nat)
    requires PhysOk(s.ph) && t in s.roots && t in s.ranges
  {
    && AR.WellPlaced(s.ranges[t])
    && (s.roots[t] == 0 ==> s.ranges[t] == [])
    && (s.roots[t] != 0 ==> IsRoot(s.k, s.roots[t]) && Covered(s.ph, s.roots[t], s.ranges[t]))
  }

  /** No block belongs to a task that is not there; data that has outlived its task belongs to nobody. */
  ghost predicate Rooted(k: map<nat, Kind>)
  {
    forall b :: b in k ==> IsRoot(k, k[b].root) || (k[b].Data? && k[b].root == 0)
  }

  ghost predicate Inv(s: State)
  {
    && PhysOk(s.ph) && Forest(s.ph, s.k) && Rooted(s.k) && s.roots.Keys == s.ranges.Keys
    && (forall t :: t in s.roots ==> TaskOk(s, t))
    && (forall t, u :: t in s.roots && u in s.roots && t != u && s.roots[t] != 0 ==> s.roots[t] != s.roots[u])
  }

  lemma InitialInv(s: State)
    requires PhysOk(s.ph) && Forest(s.ph, s.k) && s.k == map[] && s.roots == map[] && s.ranges == map[]
    ensures Inv(s)
  {
    hide PhysOk, Forest;
  }

  /** The page a range starts at is not covered by its neighbours. */
  lemma NewRangeUnmapped(ph: Phys, root: nat, r: seq<AR.Range>, at: nat, x: AR.Range, q: nat)
    requires PhysOk(ph) && Covered(ph, root, r) && at <= |r| && AR.WellPlaced(Splice(r, at, x))
    requires CoversPage(x, q) && q < Width(3)
    ensures Translate(ph, root, q) == 0
  {
    hide Translate, Width, PhysOk, RoundUp;
    var r' := Splice(r, at, x);
    forall i | 0 <= i < |r| ensures !CoversPage(r[i], q) {
      assert r'[at] == x && r'[if i < at then i else i + 1] == r[i];
    }
  }

  /** The pages of the allocated buffer are those of its range. */
  lemma PagesOfRange(va: nat, size: nat, q: nat)
    requires va % PAGE_SIZE == 0 && size > 0 && va + RoundUp(size) <= VA_END
    ensures AR.Range(va, AR.AlignedSize(size)).After() == va + RoundUp(size)
    ensures CoversPage(AR.Range(va, AR.AlignedSize(size)), q) <==> Vpn(va) <= q < Vpn(va) + RoundUp(size) / PAGE_SIZE
  {
    hide Width;
    RoundAligned(va, size);
    hide AR.AlignedSize;
    var n, v := RoundUp(size) / 4096, va / 4096;
    assert va == v * 4096 && RoundUp(size) == n * 4096;
    assert Vpn(va) == v;
  }

  lemma RoundAligned(va: nat, size: nat)
    requires va % PAGE_SIZE == 0
    ensures RoundUp(va + AR.AlignedSize(size)) == va + RoundUp(size)
  {
    var m := (size + 63) / 64;
    var v := va / 4096;
    assert (64 * m + 4095) / 4096 == (m + 63) / 64;
    assert (size + 4095) / 4096 == (m + 63) / 64;
    assert (v * 4096 + 64 * m + 4095) / 4096 == v + (64 * m + 4095) / 4096;
  }

  /** create_device_mem for a new task; the root is 0 if there is no page for it. */
  ghost predicate Created(s: State, t: nat, s': State)
    requires PhysOk(s.ph)
  {
    && t !in s.roots
    && var root := Usable(s.ph, PAGE_SIZE);
       && s'.roots == s.roots[t := root] && s'.ranges == s.ranges[t := []]
       && (root == 0 ==> s'.ph == s.ph && s'.k == s.k)
       && (root != 0 ==> s'.ph == Insert(s.ph, root, PAGE_SIZE) && s'.k == s.k[root := Table(root, 0, 0)])
  }

  /** alloc_local_mem, once allocMemory has found a place: the buffer is at vaddr, and at paddr
      unless that is 0, the case where the source throws with the range already listed. */
  ghost predicate AllocatedAt(s: State, t: nat, size: nat, ty: AR.BufferType, s': State, vaddr: nat, paddr: nat)
    requires PhysOk(s.ph)
  {
    && HasTask(s, t) && size > 0 && AR.AlignedSize(size) < AR.SEGMENT_SIZE
    && var place := AR.Place(s.ranges[t], AR.AlignedSize(size), ty);
       && place.Placed? && place.vaddr == vaddr && place.at <= |s.ranges[t]|
       && s'.roots == s.roots
       && s'.ranges == s.ranges[t := Splice(s.ranges[t], place.at, AR.Range(vaddr, AR.AlignedSize(size)))]
       && s'.ph == Allocate(s.ph, s.roots[t], vaddr, size).0 && paddr == Allocate(s.ph, s.roots[t], vaddr, size).1
       && exists p, m :: Allocated(s.ph, s.k, s.roots[t], vaddr, size, s'.k, p, m)
  }

  /** allocMemory does not throw: the sizes are right, and the list has a place. */
  ghost predicate Placeable(s: State, t: nat, size: nat, ty: AR.BufferType)
  {
    && size > 0 && t in s.roots && t in s.ranges && AR.AlignedSize(size) < 0x2000_0000
    && AR.Place(s.ranges[t], AR.AlignedSize(size), ty).Placed?
  }

  /** upload, where n bytes could be written. */
  ghost predicate Uploaded(s: State, t: nat, va: nat, data: seq<byte>, s': State, n: nat)
    requires PhysOk(s.ph)
  {
    && HasTask(s, t) && Reaches(s.ph, s.roots[t], va, |data|, n)
    && s' == s.(ph := PutBytes(s.ph, s.roots[t], va, data[..n]))
  }

  /** clean_pt on the root of a task. */
  ghost predicate Cleaned(s: State, t: nat, s': State)
    requires PhysOk(s.ph)
  {
    && HasTask(s, t) && Pruned(s.ph, s.k, s'.ph, s'.k, s.roots[t])
    && s'.roots == s.roots && s'.ranges == s.ranges
  }

  /** The blocks that clean_task leaves. */
  ghost predicate TornDown(s: State, t: nat, k': map<nat, Kind>)
    requires PhysOk(s.ph) && t in s.roots
  {
    && (forall b :: b in k' ==> b in s.k && k'[b] == Orphan(s.k[b], s.roots[t]))
    && (forall b :: b in s.k ==> (b in k' <==> !TaskBlock(s.ph, s.k, s.roots[t], b)))
  }

  /** clean_task on the root of a task, which is then forgotten. */
  ghost predicate Closed(s: State, t: nat, s': State)
    requires PhysOk(s.ph)
  {
    && HasTask(s, t) && PhysOk(s'.ph) && Forest(s'.ph, s'.k)
    && OthersKept(s.ph, s.k, s'.ph, s.roots[t]) && TornDown(s, t, s'.k)
    && s'.roots == s.roots - {t} && s'.ranges == s.ranges - {t}
  }

  ghost predicate HasTask(s: State, t: nat)
  {
    t in s.roots && t in s.ranges && s.roots[t] != 0
  }

  datatype Op =
    | Create(task: nat)
    | Alloc(task: nat, size: nat, ty: AR.BufferType)
    | Upload(task: nat, va: nat, data: seq<byte>)
    | Clean(task: nat)
    | Close(task: nat)

  /** One call of the driver, in the order that keeps the range lists sorted, or one run of clean_pt or
      clean_task. A call that throws early changes nothing. */
  ghost predicate Step(s: State, op: Op, s': State)
    requires PhysOk(s.ph)
  {
    s' == s ||
    match op
    case Create(t) => Created(s, t, s')
    case Alloc(t, size, ty) =>
      HasTask(s, t) && AR.Safe(s.ranges[t], AR.AlignedSize(size), ty)
      && exists vaddr, paddr :: AllocatedAt(s, t, size, ty, s', vaddr, paddr)
    case Upload(t, va, data) =>
      va + |data| <= VA_END && exists n :: Uploaded(s, t, va, data, s', n)
    case Clean(t) => Cleaned(s, t, s')
    case Close(t) => Closed(s, t, s')
  }

  /** What a task sees at x. */
  ghost function Sees(s: State, t: nat, x: nat): Option<byte>
    requires PhysOk(s.ph) && t in s.roots
  {
    View(s.ph, s.roots[t], x)
  }

  /** The bytes that task t sees from va on. */
  ghost predicate Shows(s: State, t: nat, va: nat, bytes: seq<byte>)
  {
    PhysOk(s.ph) && t in s.roots && forall x: nat :: va <= x < va + |bytes| ==> Sees(s, t, x) == Some(bytes[x - va])
  }

  /** Of the size bytes from va on, the first n are mapped for task t, and no more. */
  ghost predicate Mapped(s: State, t: nat, va: nat, size: nat, n: nat)
  {
    PhysOk(s.ph) && HasTask(s, t) && n <= size && Reaches(s.ph, s.roots[t], va, size, n)
  }

  lemma CreateInv(s: State, t: nat, s': State)
    requires Inv(s) && Created(s, t, s')
    ensures Inv(s') && forall u, x :: u in s.roots && s.roots[u] != 0 ==> Sees(s', u, x) == Sees(s, u, x)
  {
    hide Inv, Sees;
    CreateKeepsInv(s, t, s');
    CreateSees(s, t, s');
  }

  lemma CreateKeepsInv(s: State, t: nat, s': State)
    requires Inv(s) && Created(s, t, s')
    ensures Inv(s') && PhysOk(s.ph) && PhysOk(s'.ph)
  {
    hide PhysOk, Forest, Usable, Insert, Rooted, TaskOk, SameTranslations;
    CreatedMemory(s, t, s');
    forall u | u in s'.roots ensures TaskOk(s', u) {
      if u == t { CreatedTask(s, t, s'); } else { CreatedOther(s, t, s', u); }
    }
    forall u | u in s.roots && s.roots[u] != 0 ensures s.roots[u] != s'.roots[t] {
      RootOf(s, u);
    }
  }

  lemma RootOf(s: State, u: nat)
    requires Inv(s) && u in s.roots && s.roots[u] != 0
    ensures s.roots[u] in s.k && IsRoot(s.k, s.roots[u])
  {
    hide PhysOk, Forest, Rooted, Covered, AR.WellPlaced;
  }

  lemma CreatedMemory(s: State, t: nat, s': State)
    requires Inv(s) && Created(s, t, s')
    ensures PhysOk(s.ph) && PhysOk(s'.ph) && Forest(s'.ph, s'.k) && Rooted(s'.k) && SameTranslations(s.ph, s'.ph, s.k)
    ensures s'.roots[t] != 0 ==> Barren(s'.ph, s'.roots[t]) && s'.roots[t] !in s.k
    ensures s'.roots.Keys == s'.ranges.Keys
  {
    hide PhysOk, Forest, Usable, Insert, Gap, Rooted, TaskOk, SameTranslations, Barren;
    var root := Usable(s.ph, PAGE_SIZE);
    if root != 0 {
      InsertForest(s.ph, s.k, root, PAGE_SIZE, Table(root, 0, 0));
      RootedInsert(s.k, root, Table(root, 0, 0));
    } else {
      SameTranslationsRefl(s.ph, s.k);
    }
  }

  lemma CreatedTask(s: State, t: nat, s': State)
    requires PhysOk(s.ph) && Created(s, t, s') && PhysOk(s'.ph) && (s'.roots[t] != 0 ==> Barren(s'.ph, s'.roots[t]))
    ensures TaskOk(s', t)
  {
    hide PhysOk, Usable, Insert, Barren, Covered, AR.WellPlaced;
    AR.NothingPlaced();
    if s'.roots[t] != 0 { NewRootCovered(s'.ph, s'.roots[t]); }
  }

  lemma CreatedOther(s: State, t: nat, s': State, u: nat)
    requires Inv(s) && Created(s, t, s') && PhysOk(s'.ph) && SameTranslations(s.ph, s'.ph, s.k) && u in s.roots
    requires s'.roots[t] != 0 ==> s'.roots[t] !in s.k
    ensures TaskOk(s', u)
  {
    hide PhysOk, Forest, Usable, Insert, Rooted, Covered, AR.WellPlaced, SameTranslations;
    assert TaskOk(s, u);
    if s.roots[u] != 0 { CoveredFrame(s.ph, s'.ph, s.k, s.roots[u], s.ranges[u]); }
  }

  lemma CreateSees(s: State, t: nat, s': State)
    requires Inv(s) && Created(s, t, s') && PhysOk(s.ph) && PhysOk(s'.ph)
    ensures forall u, x :: u in s.roots && s.roots[u] != 0 ==> u in s'.roots && Sees(s', u, x) == Sees(s, u, x)
  {
    hide PhysOk, Forest, Usable, Insert, Covered, View, AR.WellPlaced, Gap, Rooted;
    var root := Usable(s.ph, PAGE_SIZE);
    if root != 0 {
      forall u, x | u in s.roots && s.roots[u] != 0 ensures Sees(s', u, x) == Sees(s, u, x) {
        assert TaskOk(s, u);
        CreateView(s.ph, s.k, root, s.roots[u], x);
      }
    }
  }

  lemma RootedInsert(k: map<nat, Kind>, p: nat, kind: Kind)
    requires Rooted(k) && p !in k && (kind == Table(p, 0, 0) || IsRoot(k, kind.root))
    ensures Rooted(k[p := kind])
  {
  }

  lemma NewRootCovered(ph: Phys, root: nat)
    requires PhysOk(ph) && Barren(ph, root)
    ensures Covered(ph, root, [])
  {
    hide PhysOk, Walk, Barren, Width;
    forall q: nat | q < Width(3) ensures Translate(ph, root, q) == 0 {
      VpnOf(q);
      EmptyRoot(ph, root, q * PAGE_SIZE);
    }
  }

  lemma VpnOf(q: nat)
    requires q < Width(3)
    ensures Vpn(q * PAGE_SIZE) == q
  {
    assert Width(3) == 512 * Width(2) && Width(2) == 512 * Width(1);
  }

  lemma CoveredFrame(ph: Phys, ph': Phys, k: map<nat, Kind>, root: nat, r: seq<AR.Range>)
    requires PhysOk(ph) && PhysOk(ph') && SameTranslations(ph, ph', k) && IsRoot(k, root) && Covered(ph, root, r)
    ensures Covered(ph', root, r)
  {
    hide PhysOk, Translate, Width;
  }

  lemma UploadInv(s: State, t: nat, va: nat, data: seq<byte>, s': State, n: nat)
    requires Inv(s) && Uploaded(s, t, va, data, s', n) && va + |data| <= VA_END
    ensures Inv(s')
    ensures forall u, x: nat :: u in s.roots && s.roots[u] != 0 && x < VA_END ==>
      Sees(s', u, x) == if u == t && va <= x < va + n then Some(data[x - va]) else Sees(s, u, x)
  {
    hide PhysOk, Forest, Covered, View, AR.WellPlaced, PutBytes, Convert, Rooted, SameTranslations;
    var root := s.roots[t];
    assert TaskOk(s, t);
    PutBytesForest(s.ph, s.k, root, va, data[..n]);
    forall u | u in s.roots ensures TaskOk(s', u) {
      assert TaskOk(s, u);
      if s.roots[u] != 0 { CoveredFrame(s.ph, s'.ph, s.k, s.roots[u], s.ranges[u]); }
    }
    forall u, x: nat | u in s.roots && s.roots[u] != 0 && x < VA_END
      ensures Sees(s', u, x) == if u == t && va <= x < va + n then Some(data[x - va]) else Sees(s, u, x)
    {
      assert TaskOk(s, u);
      PutBytesView(s.ph, s.k, root, va, data[..n], s.roots[u], x);
      assert s.roots[u] == root <==> u == t;
    }
  }

  /** Where allocMemory puts a buffer on a safe call: page-aligned, within 39 bits, clear of the rest. */
  lemma PlaceFits(r: seq<AR.Range>, size: nat, ty: AR.BufferType, at: nat, va: nat)
    requires AR.WellPlaced(r) && size > 0 && AR.AlignedSize(size) < AR.SEGMENT_SIZE
    requires AR.Safe(r, AR.AlignedSize(size), ty)
    requires AR.Place(r, AR.AlignedSize(size), ty) == AR.Placed(at, va)
    ensures at <= |r| && AR.WellPlaced(Splice(r, at, AR.Range(va, AR.AlignedSize(size))))
    ensures va % PAGE_SIZE == 0 && va + RoundUp(size) <= VA_END
  {
    hide AR.Place, AR.Safe, AR.WellPlaced, AR.AlignedSize, RoundUp, Splice;
    var x := AR.Range(va, AR.AlignedSize(size));
    AR.PlaceIsGood(r, AR.AlignedSize(size), ty);
    Inserted(r, at, x);
    RoundAligned(va, size);
    AR.After(x);
    assert x.After() <= AR.Limit(ty);
  }

  lemma Inserted(r: seq<AR.Range>, at: nat, x: AR.Range)
    requires at <= |r| && AR.WellPlaced(Splice(r, at, x))
    ensures x.vaddr % PAGE_SIZE == 0
  {
    hide RoundUp;
    assert Splice(r, at, x)[at] == x;
  }

  lemma Unmapped(ph: Phys, root: nat, r: seq<AR.Range>, at: nat, va: nat, size: nat, y: nat)
    requires PhysOk(ph) && Covered(ph, root, r) && at <= |r| && size > 0
    requires AR.WellPlaced(Splice(r, at, AR.Range(va, AR.AlignedSize(size))))
    requires va % PAGE_SIZE == 0 && va + RoundUp(size) <= VA_END && va <= y < va + RoundUp(size)
    ensures Convert(ph, root, y) == 0
  {
    hide PhysOk, Convert, Translate, Covered, AR.WellPlaced, AR.AlignedSize, RoundUp, Splice, Vpn, CoversPage,
         Width;
    ByteInPage(va, RoundUp(size), y - va);
    PagesOfRange(va, size, Vpn(y));
    NewRangeUnmapped(ph, root, r, at, AR.Range(va, AR.AlignedSize(size)), Vpn(y));
    ConvertInPage(ph, root, y);
  }

  lemma CoveredAfter(ph: Phys, k: map<nat, Kind>, ph': Phys, root: nat, r: seq<AR.Range>, at: nat, va: nat,
                     size: nat, p: nat, m: nat)
    requires PhysOk(ph) && PhysOk(ph') && Covered(ph, root, r) && at <= |r| && size > 0 && IsRoot(k, root)
    requires va % PAGE_SIZE == 0 && va + RoundUp(size) <= VA_END
    requires MapsRange(ph, ph', k, root, Vpn(va), p, m) && m <= RoundUp(size) / PAGE_SIZE
    ensures Covered(ph', root, Splice(r, at, AR.Range(va, AR.AlignedSize(size))))
  {
    hide PhysOk, Translate, AR.AlignedSize, RoundUp, Vpn, CoversPage, Width;
    var x := AR.Range(va, AR.AlignedSize(size));
    var r' := Splice(r, at, x);
    forall q: nat | q < Width(3) && Translate(ph', root, q) != 0 ensures SomeRangeCovers(r', q) {
      if Translate(ph, root, q) != 0 {
        var i :| 0 <= i < |r| && CoversPage(r[i], q);
        assert r'[if i < at then i else i + 1] == r[i];
      } else {
        PagesOfRange(va, size, q);
        assert r'[at] == x;
      }
    }
  }

  lemma OtherCovered(ph: Phys, k: map<nat, Kind>, ph': Phys, root: nat, va: nat, p: nat, m: nat, u: nat,
                     r: seq<AR.Range>)
    requires PhysOk(ph) && PhysOk(ph') && IsRoot(k, u) && u != root && Covered(ph, u, r)
    requires MapsRange(ph, ph', k, root, Vpn(va), p, m)
    ensures Covered(ph', u, r)
  {
    hide PhysOk, Translate, Vpn, Width;
  }

  lemma RootedGrows(ph: Phys, k: map<nat, Kind>, root: nat, va: nat, size: nat, k': map<nat, Kind>, p: nat, m: nat)
    requires PhysOk(ph) && size > 0 && Allocated(ph, k, root, va, size, k', p, m) && Rooted(k) && IsRoot(k, root)
    ensures Rooted(k')
  {
    hide PhysOk, Forest, KeepsData, Allocate, Usable, MapsRange, Gap, RoundUp;
    forall b | b in k' ensures IsRoot(k', k'[b].root) || (k'[b].Data? && k'[b].root == 0) {
      if b in k && IsRoot(k, k[b].root) { assert IsRoot(k', k[b].root); }
      assert IsRoot(k', root);
    }
  }

  lemma AllocatedFacts(ph: Phys, k: map<nat, Kind>, root: nat, va: nat, size: nat, k': map<nat, Kind>, p: nat, m: nat)
    requires PhysOk(ph) && size > 0 && Allocated(ph, k, root, va, size, k', p, m)
    ensures var ph' := Allocate(ph, root, va, size).0;
      && PhysOk(ph') && Forest(ph', k') && MapsRange(ph, ph', k, root, Vpn(va), p, m) && m <= RoundUp(size) / PAGE_SIZE
      && forall b :: b in k ==> b in k' && k'[b] == k[b]
  {
    hide PhysOk, Forest, KeepsData, Allocate, Usable, MapsRange, Gap, RoundUp;
  }

  lemma AllocInv(s: State, t: nat, size: nat, ty: AR.BufferType, s': State, va: nat, paddr: nat)
    requires Inv(s) && AllocatedAt(s, t, size, ty, s', va, paddr) && AR.Safe(s.ranges[t], AR.AlignedSize(size), ty)
    ensures Inv(s')
    ensures forall u, x: nat :: u in s.roots && s.roots[u] != 0 && Sees(s, u, x).Some? ==>
      Sees(s', u, x) == Sees(s, u, x)
    ensures paddr != 0 ==> forall u, x: nat :: u in s.roots && s.roots[u] != 0 && x < VA_END ==>
      Sees(s', u, x) == if u == t && va <= x < va + RoundUp(size) then Some(0) else Sees(s, u, x)
    ensures va % PAGE_SIZE == 0 && va + RoundUp(size) <= VA_END
  {
    hide PhysOk, Forest, Covered, View, AR.WellPlaced, Convert, Rooted, Allocate, Allocated, AR.Place, AR.Safe,
         AR.AlignedSize, RoundUp, Splice, MapsRange, Vpn;
    var root, r := s.roots[t], s.ranges[t];
    assert TaskOk(s, t);
    var place := AR.Place(r, AR.AlignedSize(size), ty);
    PlaceFits(r, size, ty, place.at, va);
    var p, m :| Allocated(s.ph, s.k, root, va, size, s'.k, p, m);
    AllocatedFacts(s.ph, s.k, root, va, size, s'.k, p, m);
    RootedGrows(s.ph, s.k, root, va, size, s'.k, p, m);
    forall u | u in s.roots ensures TaskOk(s', u) {
      assert TaskOk(s, u);
      if u == t {
        CoveredAfter(s.ph, s.k, s'.ph, root, r, place.at, va, size, p, m);
      } else if s.roots[u] != 0 {
        OtherCovered(s.ph, s.k, s'.ph, root, va, p, m, s.roots[u], s.ranges[u]);
      }
    }
    AllocViews(s, t, size, s', va, place.at, p, m);
  }

  lemma AllocViews(s: State, t: nat, size: nat, s': State, va: nat, at: nat, p: nat, m: nat)
    requires Inv(s) && HasTask(s, t) && size > 0 && PhysOk(s'.ph) && s'.roots == s.roots && at <= |s.ranges[t]|
    requires s'.ph == Allocate(s.ph, s.roots[t], va, size).0 && Allocated(s.ph, s.k, s.roots[t], va, size, s'.k, p, m)
    requires AR.WellPlaced(Splice(s.ranges[t], at, AR.Range(va, AR.AlignedSize(size))))
    requires va % PAGE_SIZE == 0 && va + RoundUp(size) <= VA_END
    ensures forall u, x: nat :: u in s.roots && s.roots[u] != 0 && Sees(s, u, x).Some? ==>
      Sees(s', u, x) == Sees(s, u, x)
    ensures Allocate(s.ph, s.roots[t], va, size).1 != 0 ==>
      forall u, x: nat :: u in s.roots && s.roots[u] != 0 && x < VA_END ==>
        Sees(s', u, x) == if u == t && va <= x < va + RoundUp(size) then Some(0) else Sees(s, u, x)
  {
    hide PhysOk, Forest, Covered, View, AR.WellPlaced, Convert, Rooted, Allocate, Allocated, AR.AlignedSize, RoundUp,
         Splice;
    var root := s.roots[t];
    assert TaskOk(s, t);
    forall u, x: nat | u in s.roots && s.roots[u] != 0 && Sees(s, u, x).Some? ensures Sees(s', u, x) == Sees(s, u, x) {
      assert TaskOk(s, u);
      ViewMapped(s.ph, s.k, s.roots[u], x);
      AllocateKeepsView(s.ph, s.k, root, va, size, s'.k, p, m, s.roots[u], x);
    }
    forall y: nat | va <= y < va + RoundUp(size) ensures Convert(s.ph, root, y) == 0 {
      Unmapped(s.ph, root, s.ranges[t], at, va, size, y);
    }
    if Allocate(s.ph, root, va, size).1 != 0 {
      forall u, x: nat | u in s.roots && s.roots[u] != 0 && x < VA_END
        ensures Sees(s', u, x) == if u == t && va <= x < va + RoundUp(size) then Some(0) else Sees(s, u, x)
      {
        assert TaskOk(s, u);
        AllocateView(s.ph, s.k, root, va, size, s'.k, p, m, s.roots[u], x);
        assert s.roots[u] == root <==> u == t;
      }
    }
  }

  lemma CleanInv(s: State, t: nat, s': State)
    requires Inv(s) && Cleaned(s, t, s')
    ensures Inv(s') && forall u, x :: u in s.roots && s.roots[u] != 0 ==> Sees(s', u, x) == Sees(s, u, x)
  {
    hide PhysOk, Forest, Covered, View, AR.WellPlaced, SameTranslations, KeepsData, Leafless, Rooted;
    var root := s.roots[t];
    RootedPruned(s.ph, s.k, s'.ph, s'.k, root);
    forall u | u in s.roots ensures TaskOk(s', u) {
      assert TaskOk(s, u);
      if s.roots[u] != 0 { CoveredFrame(s.ph, s'.ph, s.k, s.roots[u], s.ranges[u]); }
    }
    forall u, x | u in s.roots && s.roots[u] != 0 ensures Sees(s', u, x) == Sees(s, u, x) {
      assert TaskOk(s, u);
      PrunedViews(s.ph, s.k, s'.ph, s'.k, root, s.roots[u], x);
    }
  }

  lemma RootedPruned(ph: Phys, k: map<nat, Kind>, ph': Phys, k': map<nat, Kind>, root: nat)
    requires PhysOk(ph) && Pruned(ph, k, ph', k', root) && Rooted(k)
    ensures Rooted(k') && forall r :: IsRoot(k, r) ==> IsRoot(k', r)
  {
    hide PhysOk, Forest, SameTranslations, KeepsData, Leafless;
  }

  lemma CloseInv(s: State, t: nat, s': State)
    requires Inv(s) && Closed(s, t, s')
    ensures Inv(s')
    ensures forall u, x :: u in s'.roots && s.roots[u] != 0 ==> Sees(s', u, x) == Sees(s, u, x)
  {
    hide PhysOk, Forest, Covered, View, AR.WellPlaced, OthersKept, TornDown, Rooted;
    var root := s.roots[t];
    assert TaskOk(s, t);
    RootedTornDown(s, t, s'.k);
    forall u | u in s'.roots ensures TaskOk(s', u) {
      assert TaskOk(s, u);
      if s.roots[u] != 0 { CoveredOther(s.ph, s.k, s'.ph, root, s.roots[u], s.ranges[u]); }
    }
    forall u, x | u in s'.roots && s.roots[u] != 0 ensures Sees(s', u, x) == Sees(s, u, x) {
      assert TaskOk(s, u);
      TornDownViews(s.ph, s.k, s'.ph, root, s.roots[u], x);
    }
  }

  lemma RootedTornDown(s: State, t: nat, k': map<nat, Kind>)
    requires PhysOk(s.ph) && HasTask(s, t) && TornDown(s, t, k') && Rooted(s.k)
    ensures Rooted(k') && forall r :: IsRoot(s.k, r) && r != s.roots[t] ==> IsRoot(k', r)
  {
    hide PhysOk, Reached;
  }

  lemma CoveredOther(ph: Phys, k: map<nat, Kind>, ph': Phys, root: nat, u: nat, r: seq<AR.Range>)
    requires PhysOk(ph) && PhysOk(ph') && OthersKept(ph, k, ph', root) && IsRoot(k, u) && u != root && Covered(ph, u, r)
    ensures Covered(ph', u, r)
  {
    hide PhysOk, Translate, Width;
  }

  /** alloc_local_mem gets memory for a buffer exactly if memory suffices. */
  lemma AllocSucceeds(s: State, t: nat, size: nat, ty: AR.BufferType, s': State, va: nat, paddr: nat)
    requires Inv(s) && AllocatedAt(s, t, size, ty, s', va, paddr) && AR.Safe(s.ranges[t], AR.AlignedSize(size), ty)
    ensures paddr != 0 <==> Suffices(s.ph, s.roots[t], va, size)
  {
    hide PhysOk, Forest, Rooted, Covered, AR.WellPlaced, Allocate, Allocated, AR.Place, AR.Safe, AR.AlignedSize, Splice,
         RoundUp, Suffices;
    assert TaskOk(s, t);
    PlaceFits(s.ranges[t], size, ty, AR.Place(s.ranges[t], AR.AlignedSize(size), ty).at, va);
    AllocateSucceeds(s.ph, s.k, s.roots[t], va, size);
  }

  /** A call that gets a place changes the list of its task. */
  lemma PlacedChanges(s: State, t: nat, size: nat, ty: AR.BufferType, s': State, va: nat, paddr: nat)
    requires PhysOk(s.ph) && AllocatedAt(s, t, size, ty, s', va, paddr)
    ensures s' != s
  {
    hide PhysOk, AR.Place, AR.AlignedSize, Allocate, Allocated;
    assert |s'.ranges[t]| == |s.ranges[t]| + 1;
  }

  /** The first task of a device with 4 GiB of memory gets the first page above the reserved range. */
  lemma FirstTask(s: State, t: nat, s': State)
    requires PhysOk(s.ph) && s.ph.ext == map[] && s.ph.range == 0x1_0000_0000 && Created(s, t, s')
    ensures s'.roots[t] == 0x2000_0000
  {
    hide PhysOk, Usable, Insert;
    AllFree(s.ph);
  }
}
