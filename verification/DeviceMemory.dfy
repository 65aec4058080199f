/** src/device/memory.h: page tables and the virtual address spaces of tasks. */
module DeviceMemory {
  import opened Options
  import opened Sequences
  import opened Words
  import opened Bits
  import opened Sv39
  import opened Phys
  import opened PageTable
  import opened ForestChanges
  import opened Allocation
  import opened VirtualMemory
  import opened Pruning
  import opened TearDown
  import opened BlockList

  /** ~0ull in the cache of table indices. */
  const NO_INDEX: nat := WORD_RANGE - 1

  class Memory {
    const pm: PhysicalMemory
    ghost var kinds: map<nat, Kind>

    ghost predicate Valid()
      reads this, pm
    {
      pm.Valid() && Forest(pm.state, kinds)
    }

    constructor (range: nat)
      ensures fresh(pm) && pm.cursor == At(0) && kinds == map[]
      ensures pm.maxRange == RoundUp(if range <= 0x100_0000_0000_0000 then range else 0x100_0000_0000_0000)
      ensures Valid() <==> 0x2000_0000 <= pm.maxRange
      ensures Valid() ==> pm.state.ext == map[] && pm.state.data == map[] && pm.state.range == pm.maxRange
    {
      var p := new PhysicalMemory(range);
      pm := p;
      kinds := map[];
    }

    method CreateRootPt() returns (root: nat)
      requires Valid() && pm.cursor.At?
      modifies this, pm
      ensures Valid() && pm.cursor.At?
      ensures root == Usable(old(pm.state), PAGE_SIZE)
      ensures root == 0 ==> pm.state == old(pm.state) && kinds == old(kinds)
      ensures root != 0 ==> pm.state == Insert(old(pm.state), root, PAGE_SIZE)
      ensures root != 0 ==> root !in old(kinds) && kinds == old(kinds)[root := Table(root, 0, 0)]
    {
      hide Forest, PhysOk, Usable, Insert, Represents, Sorted, Splice, NewBlock, Gap;
      WholePages(PAGE_SIZE);
      ForestFacts(pm.state, kinds);
      root := pm.Usable(PAGE_SIZE);
      if root != 0 {
        InsertForest(pm.state, kinds, root, PAGE_SIZE, Table(root, 0, 0));
        var _ := pm.Insert(root, PAGE_SIZE);
        kinds := kinds[root := Table(root, 0, 0)];
      }
    }

    /** The level-0 and level-1 steps of allocate: give entry i of the table at t a table. */
    method EnsureTable(t: nat, i: nat) returns (ok: bool)
      requires pm.Valid() && Paged(pm.state) && pm.cursor.At?
      modifies pm
      ensures pm.Valid() && Paged(pm.state) && pm.cursor.At?
      ensures pm.state == EnsureChild(old(pm.state), t, i).ph
      ensures ok == EnsureChild(old(pm.state), t, i).ok
    {
      hide EnsureChild, PhysOk, Paged, Usable, Insert, Word, Represents, Gap, PTE2PA, SetPTE, And, PokeWord, RoundUp;
      WholePages(PAGE_SIZE);
      EnsureChildPaged(pm.state, t, i);
      EnsureChildCases(pm.state, t, i);
      var e := pm.ReadValue(t + i * 8);
      ValidBit(e);
      if And(e, V) == 0 {
        var c := pm.Usable(PAGE_SIZE);
        if c == 0 {
          return false;
        }
        LinkTable(t, i, c);
      }
      return true;
    }

    method LinkTable(t: nat, i: nat, c: nat)
      requires pm.Valid() && pm.cursor.At? && Gap(pm.state, c, PAGE_SIZE) && c + PAGE_SIZE <= pm.maxRange
      modifies pm
      ensures pm.Valid() && pm.cursor.At?
      ensures pm.state == PokeWord(Insert(old(pm.state), c, PAGE_SIZE), t + i * 8, SetPTE(c, V))
    {
      hide PhysOk, Insert, Represents, Sorted, Splice, NewBlock, Gap, SetPTE, PokeWord;
      PteFits(c);
      var _ := pm.Insert(c, PAGE_SIZE);
      var _ := pm.WriteValue(t + i * 8, SetPTE(c, V));
    }

    /** The level-2 step of allocate. */
    method FillEntry(t: nat, i: nat, pa: nat)
      requires pm.Valid() && pm.cursor.At?
      modifies pm
      ensures pm.Valid() && pm.cursor.At?
      ensures pm.state == FillLeaf(old(pm.state), t, i, pa)
    {
      hide PhysOk, Represents, PTE2PA, And, PokeWord;
      var e := pm.ReadValue(t + i * 8);
      ValidBit(e);
      if And(e, V) == 0 {
        PteFits(pa);
        var _ := pm.WriteValue(t + i * 8, SetPTE(pa, RWXV));
      }
    }

    /** One turn of allocate's loop. An index of the cache that has not changed skips its step. */
    method MapOnePage(root: nat, v: nat, pa: nat, last: (nat, nat, nat)) returns (ok: bool, idx: (nat, nat, nat))
      requires pm.Valid() && Paged(pm.state) && pm.cursor.At? && v < VA_END && Cached(pm.state, root, v, last)
      modifies pm
      ensures pm.Valid() && pm.cursor.At?
      ensures pm.state == MapPage(old(pm.state), root, v, pa).ph
      ensures ok == MapPage(old(pm.state), root, v, pa).ok
      ensures ok ==> idx == (VAextract(v, 0), VAextract(v, 1), VAextract(v, 2))
    {
      hide EnsureChild, FillLeaf, PhysOk, Paged, Word, Represents, PTE2PA, VAextract;
      idx := last;
      CachedLevels(pm.state, root, v, last);
      if VAextract(v, 0) != idx.0 {
        idx := (VAextract(v, 0), idx.1, idx.2);
        ok := EnsureTable(root, idx.0);
        if !ok {
          return;
        }
      }
      label AfterLevel0:
      var e0 := pm.ReadValue(root + idx.0 * 8);
      var pt1 := PTE2PA(e0);
      if VAextract(v, 1) != idx.1 {
        idx := (idx.0, VAextract(v, 1), idx.2);
        ok := EnsureTable(pt1, idx.1);
        if !ok {
          return;
        }
      }
      var e1 := pm.ReadValue(pt1 + idx.1 * 8);
      var pt2 := PTE2PA(e1);
      if VAextract(v, 2) != idx.2 {
        idx := (idx.0, idx.1, VAextract(v, 2));
        FillEntry(pt2, idx.2, pa);
      }
      ok := true;
    }

    /** allocate: the same memory and result as looking up every table again for every page. The
        offset of the address in its page does not matter. */
    method Allocate(root: nat, va: nat, length: nat) returns (p: nat, ghost block: nat, ghost pages: nat)
      requires Valid() && pm.cursor.At? && IsRoot(kinds, root)
      requires length > 0 && PageOf(va) + RoundUp(length) <= VA_END
      modifies this, pm
      ensures Valid() && pm.cursor.At?
      ensures pm.state == Allocation.Allocate(old(pm.state), root, PageOf(va), length).0
      ensures p == Allocation.Allocate(old(pm.state), root, PageOf(va), length).1
      ensures Allocated(old(pm.state), old(kinds), root, PageOf(va), length, kinds, block, pages)
    {
      hide Walk, Width, Vpn, EntryOk, Splice, NewBlock, MapPages, MapPage, PhysOk, Usable, Insert, Gap, Word,
           Represents, Paged, Forest, Cached, Allocated, Allocation.Allocate, RoundUp, Sorted, PageOf, Inserted,
           VAextract, InsertFromHead;
      ghost var base := PageOf(va);
      PageBounds(va);
      ForestFacts(pm.state, kinds);
      ghost var k';
      k', block, pages := AllocateForest(pm.state, kinds, root, base, length);
      AllocatedForest(pm.state, kinds, root, base, length, k', block, pages);
      AllocateCases(pm.state, root, base, length);
      var n := RoundUp(length);
      WholePages(n);
      var pa := pm.Usable(n);
      if pa == 0 {
        kinds := k';
        return 0, block, pages;
      }
      ghost var ph1, k1 := Insert(pm.state, pa, n), kinds[pa := Data(root, base)];
      FreshBlock(pm.state, kinds, root, base, pa, n);
      var inserted := pm.Insert(pa, n);
      var idx := (NO_INDEX, NO_INDEX, NO_INDEX);
      var iter := 0;
      ghost var i := 0;
      NothingCached(pm.state, root, va);
      while iter < n
        invariant iter == i * PAGE_SIZE <= n && pm.Valid() && pm.cursor.At? && Paged(pm.state)
        invariant MapPages(ph1, root, base, pa, i).ok && pm.state == MapPages(ph1, root, base, pa, i).ph
        invariant Cached(pm.state, root, va + iter, idx)
      {
        var ok;
        TurnInPage(pm.state, root, va, pa, i);
        ok, idx := MapOnePage(root, va + iter, pa + iter, idx);
        MapPagesNext(ph1, root, base, pa, i);
        if !ok {
          MapPagesStops(ph1, root, base, pa, i + 1, n / PAGE_SIZE);
          kinds := k';
          return 0, block, pages;
        }
        i := i + 1;
        iter := iter + PAGE_SIZE;
        PageReady(ph1, k1, root, base, pa, n, i, idx);
        CachedInPage(pm.state, root, va, i, idx);
      }
      kinds := k';
      p := pa;
    }

    method Convert(root: nat, va: nat) returns (pa: nat)
      requires Valid()
      ensures pa == PageTable.Convert(pm.state, root, va)
    {
      hide PhysOk, Word, Represents, PTE2PA, VAextract, Or, And, Forest;
      var e0 := pm.ReadValue(root + VAextract(va, 0) * 8);
      var pt1 := PTE2PA(e0);
      if pt1 == 0 {
        return 0;
      }
      var e1 := pm.ReadValue(pt1 + VAextract(va, 1) * 8);
      var pt2 := PTE2PA(e1);
      if pt2 == 0 {
        return 0;
      }
      var e2 := pm.ReadValue(pt2 + VAextract(va, 2) * 8);
      var page := PTE2PA(e2);
      if page == 0 {
        return 0;
      }
      JoinOffset(page, va);
      return Or(page, And(va, 0xfff));
    }

    /** read_virt: act_virt with read_data as the action. The first n bytes of the range are
        mapped and have been read; nothing else of the buffer has changed. */
    method ReadVirt(root: nat, v: nat, size: nat, out: array<byte>) returns (ok: bool, ghost n: nat)
      requires Valid() && (root == 0 || IsRoot(kinds, root)) && size <= out.Length
      modifies out
      ensures Reaches(pm.state, root, v, size, n)
      ensures ok <==> n == size && PageTable.Convert(pm.state, root, v) != 0
      ensures forall i :: 0 <= i < n ==> View(pm.state, root, v + i) == Some(out[i])
      ensures forall i :: n <= i < out.Length ==> out[i] == old(out[i])
    {
      hide PhysOk, Represents, And, Vpn, PageTable.Convert, Forest, View;
      NoRoot(pm.state, v);
      var vpn, len := 0, 0;
      var pa := Convert(root, v);
      if pa == 0 {
        return false, 0;
      }
      var it := 0;
      while it < size
        invariant Chunk(pm.state, root, v, it, len, vpn, pa) && it <= size
        invariant forall i :: 0 <= i < it - len ==> View(pm.state, root, v + i) == Some(out[i])
        invariant forall i :: it - len <= i < out.Length ==> out[i] == old(out[i])
      {
        var page := And(v + it, 0x7f_ffff_f000);
        ChunkStep(pm.state, root, v, it, len, vpn, pa);
        if vpn != page {
          if len != 0 {
            ReadChunk(root, v, it - len, len, pa, out);
            pa := Convert(root, v + it);
          }
          len := 0;
          vpn := page;
        }
        if pa == 0 {
          return false, it;
        }
        len := len + 1;
        it := it + 1;
      }
      ReadChunk(root, v, size - len, len, pa, out);
      return true, size;
    }

    /** The action of read_virt on one chunk. */
    method ReadChunk(root: nat, v: nat, b: nat, len: nat, pa: nat, out: array<byte>)
      requires Valid() && IsRoot(kinds, root) && b + len <= out.Length
      requires pa == PageTable.Convert(pm.state, root, v + b) != 0 && len <= PAGE_SIZE - (v + b) % PAGE_SIZE
      modifies out
      ensures forall i :: b <= i < b + len ==> View(pm.state, root, v + i) == Some(out[i])
      ensures forall i :: 0 <= i < out.Length && !(b <= i < b + len) ==> out[i] == old(out[i])
    {
      hide PhysOk, Represents, PageTable.Convert, Forest, View, Vpn;
      var d := MappedPage(pm.state, kinds, root, v + b);
      assert InBlock(pm.state, d, pa, len);
      var ok, data := pm.ReadData(pa, len);
      if ok {
        forall i | 0 <= i < len {
          out[b + i] := data[i];
        }
        forall i | b <= i < b + len ensures View(pm.state, root, v + i) == Some(out[i]) {
          ViewAhead(pm.state, root, v + b, len, i - b);
        }
      }
    }

    /** write_virt: act_virt with write_data as the action, the same as writing the first n bytes
        of the range one by one. */
    method WriteVirt(root: nat, v: nat, src: seq<byte>) returns (ok: bool, ghost n: nat)
      requires Valid() && (root == 0 || IsRoot(kinds, root))
      modifies pm
      ensures Valid() && pm.cursor == old(pm.cursor)
      ensures Reaches(old(pm.state), root, v, |src|, n)
      ensures ok <==> n == |src| && PageTable.Convert(old(pm.state), root, v) != 0
      ensures pm.state == PutBytes(old(pm.state), root, v, src[..n])
    {
      hide PhysOk, Represents, And, Vpn, PageTable.Convert, Forest, PutBytes, Poke;
      var vpn, len := 0, 0;
      ghost var ph := pm.state;
      PutNothing(ph, root, v, src);
      NoRoot(ph, v);
      var pa := Convert(root, v);
      if pa == 0 {
        return false, 0;
      }
      var it := 0;
      while it < |src|
        invariant Valid() && pm.cursor == old(pm.cursor)
        invariant Chunk(ph, root, v, it, len, vpn, pa) && it <= |src|
        invariant pm.state == PutBytes(ph, root, v, src[..it - len])
      {
        var page := And(v + it, 0x7f_ffff_f000);
        ChunkStep(ph, root, v, it, len, vpn, pa);
        if vpn != page {
          if len != 0 {
            WriteChunk(root, v, src, it - len, len, pa, ph);
            pa := Convert(root, v + it);
            ConvertAfter(ph, kinds, root, v, src[..it], v + it);
          }
          len := 0;
          vpn := page;
        }
        if pa == 0 {
          return false, it;
        }
        len := len + 1;
        it := it + 1;
      }
      WriteChunk(root, v, src, |src| - len, len, pa, ph);
      assert src[..|src|] == src;
      return true, |src|;
    }

    /** The action of write_virt on one chunk. */
    method WriteChunk(root: nat, v: nat, src: seq<byte>, b: nat, len: nat, pa: nat, ghost ph: Phys)
      requires Valid() && IsRoot(kinds, root) && b + len <= |src|
      requires PhysOk(ph) && Forest(ph, kinds) && pm.state == PutBytes(ph, root, v, src[..b])
      requires pa == PageTable.Convert(ph, root, v + b) != 0 && len <= PAGE_SIZE - (v + b) % PAGE_SIZE
      modifies pm
      ensures Valid() && pm.cursor == old(pm.cursor)
      ensures pm.state == PutBytes(ph, root, v, src[..b + len])
    {
      hide PhysOk, Represents, PageTable.Convert, Forest, PutBytes, Poke, Readable;
      ChunkIsBytes(ph, kinds, root, v, src, b, len);
      PutBytesForest(ph, kinds, root, v, src[..b + len]);
      var _ := pm.WriteData(pa, src[b..b + len]);
    }

    /** The innermost loop of clean_pt. */
    method IsEmptyTable(t: nat) returns (empty: bool)
      requires Valid() && IsTable(kinds, t)
      ensures empty <==> Barren(pm.state, t)
    {
      hide PhysOk, Represents, Forest, Word, And;
      var it := 0;
      ghost var i := 0;
      while it < PAGE_SIZE
        invariant it == 8 * i <= PAGE_SIZE
        invariant forall j :: 0 <= j < i ==> Entry(pm.state, t, j) == 0
      {
        var e := pm.ReadValue(t + it);
        ValidBit(e);
        EntryInUse(pm.state, kinds, t, i);
        if And(e, V) != 0 {
          assert Entry(pm.state, t, i) != 0;
          return false;
        }
        it, i := it + 8, i + 1;
      }
      return true;
    }

    /** clean_pt's `remove` and `write_value` for an empty table c at entry i of table t. */
    method Prune(at: nat, c: nat, ghost t: nat, ghost i: nat)
      requires Valid() && at == t + 8 * i && IsTable(kinds, t) && kinds[t].level < 2 && i < 512
      requires IsTable(kinds, c) && kinds[c] == NodeAt(kinds, t, i) && Barren(pm.state, c)
      modifies this, pm
      ensures Valid() && c in old(pm.state).ext
      ensures pm.state == Unlink(old(pm.state), t, i, c) && kinds == old(kinds) - {c}
      ensures CursorStays(old(pm.state), old(pm.Under()), pm.state, pm.Under())
    {
      hide PhysOk, Represents, Forest, Word, Unlink, Barren, Erase, PokeWord, Without, UnderCursor, CursorStays;
      UnlinkPrunes(pm.state, kinds, t, i, c);
      TableBlock(pm.state, kinds, c);
      UnlinkIs(pm.state, t, i, c);
      var _ := pm.Remove(c);
      ghost var ph, u := pm.state, pm.Under();
      var _ := pm.WriteValue(at, 0);
      CursorListed(pm.blocks, pm.state, pm.cursor);
      CursorPoked(ph, at, 0, u);
      CursorStaysTrans(old(pm.state), old(pm.Under()), ph, u, pm.state, u);
      kinds := kinds - {c};
    }

    /** The middle loop of clean_pt: the children of the table at t. */
    method CleanChildren(t: nat) returns (empty: bool)
      requires Valid() && IsTable(kinds, t) && kinds[t].level == 1 && IsRoot(kinds, kinds[t].root)
      modifies this, pm
      ensures Valid() && Pruned(old(pm.state), old(kinds), pm.state, kinds, old(kinds)[t].root)
      ensures t in kinds && (empty <==> Barren(pm.state, t)) && TableDone(pm.state, t, 512)
      ensures OthersSame(old(pm.state), pm.state, kinds, t)
      ensures forall b :: b in old(kinds) && b !in kinds ==> old(kinds)[b].Table? && old(kinds)[b].level == 2
      ensures kinds == old(kinds) ==> pm.state == old(pm.state)
      ensures CursorStays(old(pm.state), old(pm.Under()), pm.state, pm.Under())
    {
      hide PhysOk, Represents, Forest, Word, Pruned, OthersSame, TableDone, Barren, And, PTE2PA, UnderCursor,
           CursorStays;
      CursorListed(pm.blocks, pm.state, pm.cursor);
      empty := true;
      var it := 0;
      ghost var i := 0;
      StartCleaning(pm.state, kinds, t);
      while it < PAGE_SIZE
        invariant it == 8 * i <= PAGE_SIZE && Valid()
        invariant Cleaned(old(pm.state), old(kinds), pm.state, kinds, t, i, empty)
        invariant CursorStays(old(pm.state), old(pm.Under()), pm.state, pm.Under())
      {
        var e := pm.ReadValue(t + it);
        ValidBit(e);
        ghost var ph, k := pm.state, kinds;
        CleaningRow(old(pm.state), old(kinds), ph, k, t, i, empty);
        if And(e, V) != 0 {
          var child := PTE2PA(e);
          var childEmpty := IsEmptyTable(child);
          if childEmpty {
            ghost var u := pm.Under();
            Prune(t + it, child, t, i);
            CursorStaysTrans(old(pm.state), old(pm.Under()), ph, u, pm.state, pm.Under());
            CleanedStep(old(pm.state), old(kinds), ph, k, t, i, empty, child);
          } else {
            empty := false;
          }
        }
        it, i := it + 8, i + 1;
      }
      FinishCleaning(old(pm.state), old(kinds), pm.state, kinds, t, empty);
    }

    /** clean_pt: exactly the tables of the task with nothing mapped under them go, no
        translation and no data changes, and no empty table is left. */
    method CleanPt(root: nat)
      requires Valid() && IsRoot(kinds, root)
      modifies this, pm
      ensures Valid() && Pruned(old(pm.state), old(kinds), pm.state, kinds, root)
      ensures forall b :: SubTable(old(kinds), root, b) ==> (b in kinds <==> !Leafless(old(pm.state), old(kinds)[b]))
      ensures forall b :: SubTable(kinds, root, b) ==> !Barren(pm.state, b) && !Leafless(pm.state, kinds[b])
      ensures (forall b :: SubTable(old(kinds), root, b) ==> !Leafless(old(pm.state), old(kinds)[b])) ==>
        pm.state == old(pm.state) && kinds == old(kinds) && (old(pm.cursor.At?) ==> pm.cursor.At?)
      ensures CursorStays(old(pm.state), old(pm.Under()), pm.state, pm.Under())
    {
      hide PhysOk, Represents, Forest, Word, Pruned, OthersSame, TableDone, RootDone, Barren, Leafless, And,
           PTE2PA, RootCleaned, UnderCursor, CursorStays;
      CursorListed(pm.blocks, pm.state, pm.cursor);
      var it0 := 0;
      ghost var i := 0;
      StartRoot(pm.state, kinds, root);
      while it0 < PAGE_SIZE
        invariant it0 == 8 * i <= PAGE_SIZE && Valid()
        invariant RootCleaned(old(pm.state), old(kinds), pm.state, kinds, root, i)
        invariant CursorStays(old(pm.state), old(pm.Under()), pm.state, pm.Under())
      {
        var e := pm.ReadValue(root + it0);
        ValidBit(e);
        ghost var ph1, k1 := pm.state, kinds;
        RootRow(old(pm.state), old(kinds), ph1, k1, root, i);
        if And(e, V) != 0 {
          var pt1 := PTE2PA(e);
          ghost var u1 := pm.Under();
          var empty := CleanChildren(pt1);
          ghost var ph2, k2, u2 := pm.state, kinds, pm.Under();
          CursorStaysTrans(old(pm.state), old(pm.Under()), ph1, u1, ph2, u2);
          RootChildren(old(pm.state), old(kinds), ph1, k1, ph2, k2, root, i, pt1);
          if empty {
            Prune(root + it0, pt1, root, i);
            CursorStaysTrans(old(pm.state), old(pm.Under()), ph2, u2, pm.state, pm.Under());
            RootPrune(old(pm.state), old(kinds), ph2, k2, root, i, pt1);
          }
        }
        it0, i := it0 + 8, i + 1;
      }
      FinishRoot(old(pm.state), old(kinds), pm.state, kinds, root);
      StillLive(old(pm.blocks), old(pm.state), old(pm.cursor), pm.state, pm.blocks, pm.cursor);
    }

    /** `remove` during clean_task; ph is the memory before it, s what has gone since. */
    method RemoveHolder(a: nat, ghost ph: Phys, ghost s: set<nat>)
      requires pm.Valid() && Residue(ph, s, pm.state) && LOW_END <= a < pm.maxRange
      modifies pm
      ensures pm.Valid() && Residue(ph, s + Holders(ph, a), pm.state)
      ensures CursorStays(old(pm.state), old(pm.Under()), pm.state, pm.Under())
    {
      hide PhysOk, Represents, Residue, Erase, Without, UnderCursor, CursorStays;
      var _ := pm.Remove(a);
      HolderErased(ph, s, old(pm.state), a, pm.state);
    }

    /** The inner loop of clean_task: remove the data blocks that the last-level table at t leads to. */
    method ClearLeaves(t: nat, ghost ph: Phys, ghost k: map<nat, Kind>, ghost s: set<nat>)
      requires pm.Valid() && PhysOk(ph) && Residue(ph, s, pm.state)
      requires Forest(ph, k) && IsTable(k, t) && k[t].level == 2 && Clear(ph, k, s, t)
      modifies pm
      ensures pm.Valid() && Residue(ph, s + Owned(ph, t, 2, 512), pm.state)
      ensures CursorStays(old(pm.state), old(pm.Under()), pm.state, pm.Under())
    {
      hide PhysOk, Represents, Residue, Forest, Owned, Clear, Holders, Word, PTE2PA, And, UnderCursor, CursorStays;
      CursorListed(pm.blocks, pm.state, pm.cursor);
      var it := 0;
      ghost var i := 0;
      NothingOwned(ph, t, 2, s);
      while it < PAGE_SIZE
        invariant it == 8 * i <= PAGE_SIZE && pm.Valid() && Residue(ph, s + Owned(ph, t, 2, i), pm.state)
        invariant CursorStays(old(pm.state), old(pm.Under()), pm.state, pm.Under())
      {
        ghost var ph1, u1 := pm.state, pm.Under();
        StillClear(ph, k, s, t, i);
        EntryResidue(ph, k, s + Owned(ph, t, 2, i), pm.state, t, i);
        OwnedNext(ph, t, 2, i);
        var e := pm.ReadValue(t + it);
        ValidBit(e);
        if And(e, V) != 0 {
          LeafRange(ph, k, s + Owned(ph, t, 2, i), pm.state, t, i);
          RemoveHolder(PTE2PA(e), ph, s + Owned(ph, t, 2, i));
          CursorStaysTrans(old(pm.state), old(pm.Under()), ph1, u1, pm.state, pm.Under());
          assert s + Owned(ph, t, 2, i) + Holders(ph, PTE2PA(e)) == s + Owned(ph, t, 2, i + 1);
        } else {
          assert Owned(ph, t, 2, i + 1) == Owned(ph, t, 2, i);
        }
        it, i := it + 8, i + 1;
      }
    }

    /** The middle loop of clean_task. */
    method ClearChildren(t: nat, ghost ph: Phys, ghost k: map<nat, Kind>, ghost s: set<nat>)
      requires pm.Valid() && PhysOk(ph) && Residue(ph, s, pm.state)
      requires Forest(ph, k) && IsTable(k, t) && k[t].level == 1 && Clear(ph, k, s, t)
      modifies pm
      ensures pm.Valid() && Residue(ph, s + Owned(ph, t, 1, 512), pm.state)
      ensures CursorStays(old(pm.state), old(pm.Under()), pm.state, pm.Under())
    {
      hide PhysOk, Represents, Residue, Forest, Owned, Clear, Holders, Word, PTE2PA, And, UnderCursor, CursorStays;
      CursorListed(pm.blocks, pm.state, pm.cursor);
      var it := 0;
      ghost var i := 0;
      NothingOwned(ph, t, 1, s);
      while it < PAGE_SIZE
        invariant it == 8 * i <= PAGE_SIZE && pm.Valid() && Residue(ph, s + Owned(ph, t, 1, i), pm.state)
        invariant CursorStays(old(pm.state), old(pm.Under()), pm.state, pm.Under())
      {
        ghost var ph1, u1 := pm.state, pm.Under();
        StillClear(ph, k, s, t, i);
        ghost var s1 := s + Owned(ph, t, 1, i);
        EntryResidue(ph, k, s1, pm.state, t, i);
        OwnedNext(ph, t, 1, i);
        var e := pm.ReadValue(t + it);
        ValidBit(e);
        if And(e, V) != 0 {
          var c := PTE2PA(e);
          ClearLeaves(c, ph, k, s1);
          ghost var ph2, u2 := pm.state, pm.Under();
          CursorStaysTrans(old(pm.state), old(pm.Under()), ph1, u1, ph2, u2);
          TableRange(ph, k, s1 + Owned(ph, c, 2, 512), pm.state, c);
          RemoveHolder(c, ph, s1 + Owned(ph, c, 2, 512));
          CursorStaysTrans(old(pm.state), old(pm.Under()), ph2, u2, pm.state, pm.Under());
          assert s1 + Owned(ph, c, 2, 512) + {c} == s + Owned(ph, t, 1, i + 1);
        } else {
          assert Owned(ph, t, 1, i + 1) == Owned(ph, t, 1, i);
        }
        it, i := it + 8, i + 1;
      }
    }

    /** clean_task: exactly the task's tables and the data blocks it maps go, each once even if
        many leaves lead to it; the other tasks' blocks, bytes and translations stay. */
    method CleanTask(root: nat)
      requires Valid() && IsRoot(kinds, root)
      modifies this, pm
      ensures Valid() && OthersKept(old(pm.state), old(kinds), pm.state, root)
      ensures forall b :: b in kinds ==> b in old(kinds) && kinds[b] == Orphan(old(kinds)[b], root)
      ensures forall b :: b in old(kinds) ==> (b in kinds <==> !TaskBlock(old(pm.state), old(kinds), root, b))
      ensures CursorStays(old(pm.state), old(pm.Under()), pm.state, pm.Under())
    {
      hide PhysOk, Represents, Residue, Forest, Owned, Clear, Holders, Word, PTE2PA, And, OthersKept, TaskBlock,
           UnderCursor, CursorStays;
      CursorListed(pm.blocks, pm.state, pm.cursor);
      var it := 0;
      ghost var i := 0;
      ghost var ph, k := pm.state, kinds;
      NothingOwned(ph, root, 0, {});
      ResidueRefl(ph);
      RootClear(ph, k, root);
      while it < PAGE_SIZE
        invariant it == 8 * i <= PAGE_SIZE && pm.Valid()
        invariant Residue(ph, {} + Owned(ph, root, 0, i), pm.state) && kinds == k
        invariant CursorStays(old(pm.state), old(pm.Under()), pm.state, pm.Under())
      {
        ghost var ph1, u1 := pm.state, pm.Under();
        StillClear(ph, k, {}, root, i);
        ghost var s1 := {} + Owned(ph, root, 0, i);
        EntryResidue(ph, k, s1, pm.state, root, i);
        OwnedNext(ph, root, 0, i);
        var e := pm.ReadValue(root + it);
        ValidBit(e);
        if And(e, V) != 0 {
          var c := PTE2PA(e);
          ClearChildren(c, ph, k, s1);
          ghost var ph2, u2 := pm.state, pm.Under();
          CursorStaysTrans(old(pm.state), old(pm.Under()), ph1, u1, ph2, u2);
          TableRange(ph, k, s1 + Owned(ph, c, 1, 512), pm.state, c);
          RemoveHolder(c, ph, s1 + Owned(ph, c, 1, 512));
          CursorStaysTrans(old(pm.state), old(pm.Under()), ph2, u2, pm.state, pm.Under());
          assert s1 + Owned(ph, c, 1, 512) + {c} == {} + Owned(ph, root, 0, i + 1);
        } else {
          assert Owned(ph, root, 0, i + 1) == Owned(ph, root, 0, i);
        }
        it, i := it + 8, i + 1;
      }
      ghost var s := {} + Owned(ph, root, 0, 512);
      TableRange(ph, k, s, pm.state, root);
      ghost var ph1, u1 := pm.state, pm.Under();
      RemoveHolder(root, ph, s);
      CursorStaysTrans(old(pm.state), old(pm.Under()), ph1, u1, pm.state, pm.Under());
      assert s + {root} == Owned(ph, root, 0, 512) + {root};
      TaskGone(ph, k, pm.state, root, s + {root});
      OrphansForest(pm.state, k - (s + {root}), root);
      kinds := Orphans(k - (s + {root}), root);
    }
  }

  /** Without a root table nothing is mapped: the reserved block reads as 0. */
  lemma NoRoot(ph: Phys, va: nat)
    requires PhysOk(ph)
    ensures PageTable.Convert(ph, 0, va) == 0
  {
    hide PhysOk, PTE2PA, VAextract;
    LowReadsZero(ph, VAextract(va, 0));
    ZeroEntry();
  }

  /** A write leaves the cursor where it is. */
  lemma CursorPoked(ph: Phys, a: nat, w: nat, u: Option<nat>)
    requires var ph' := PokeWord(ph, a, w); CursorStays(ph', u, ph', u)
    ensures CursorStays(ph, u, PokeWord(ph, a, w), u)
  {
  }

  /** Where nothing has gone the cursor is still live. */
  lemma StillLive(blocks: seq<Block>, ph: Phys, c: Cursor, ph': Phys, blocks': seq<Block>, c': Cursor)
    requires Represents(blocks, ph) && (c.At? ==> c.index < |blocks|)
    requires CursorStays(ph, UnderCursor(blocks, c), ph', UnderCursor(blocks', c'))
    ensures ph' == ph && c.At? ==> c'.At?
  {
    hide Represents;
    CursorListed(blocks, ph, c);
  }

  lemma WholePages(n: nat)
    ensures n % PAGE_SIZE == 0 ==> RoundUp(n) == n
  {
  }

  lemma ForestFacts(ph: Phys, k: map<nat, Kind>)
    requires Forest(ph, k)
    ensures PhysOk(ph) && Paged(ph) && k.Keys == ph.ext.Keys
  {
    hide PhysOk, Paged;
  }

  /** The address of the page that va lies in. */
  function PageOf(va: nat): nat
  {
    va - va % PAGE_SIZE
  }

  lemma IndicesInPage(va: nat, i: nat)
    ensures PageOf(va + i * PAGE_SIZE) == PageOf(va) + i * PAGE_SIZE
    ensures var b := PageOf(va);
      VAextract(va, 0) == VAextract(b, 0) && VAextract(va, 1) == VAextract(b, 1) && VAextract(va, 2) == VAextract(b, 2)
  {
    hide VAextract;
    assert va % 4096 == (va + i * 4096) % 4096;
    PageOfVpn(va);
    VpnFields(va);
    VpnFields(PageOf(va));
  }

  lemma PageOfVpn(va: nat)
    ensures Vpn(PageOf(va)) == Vpn(va)
  {
    assert PageOf(va) / 4096 == va / 4096;
  }

  lemma MapPageInPage(ph: Phys, root: nat, va: nat, pa: nat)
    requires PhysOk(ph)
    ensures MapPage(ph, root, va, pa) == MapPage(ph, root, PageOf(va), pa)
  {
    hide PhysOk, VAextract, EnsureChild, FillLeaf, PTE2PA, Entry;
    IndicesInPage(va, 0);
  }

  lemma PageBounds(va: nat)
    ensures PageOf(va) % PAGE_SIZE == 0 && PageOf(va) <= va < PageOf(va) + PAGE_SIZE
  {
  }

  lemma TurnInPage(ph: Phys, root: nat, va: nat, pa: nat, i: nat)
    requires PhysOk(ph)
    ensures MapPage(ph, root, va + i * PAGE_SIZE, pa + i * PAGE_SIZE)
         == MapPage(ph, root, PageOf(va) + i * PAGE_SIZE, pa + i * PAGE_SIZE)
    ensures var v, b := va + i * PAGE_SIZE, PageOf(va) + i * PAGE_SIZE;
      VAextract(v, 0) == VAextract(b, 0) && VAextract(v, 1) == VAextract(b, 1) && VAextract(v, 2) == VAextract(b, 2)
  {
    hide PhysOk, MapPage, VAextract;
    IndicesInPage(va, i);
    IndicesInPage(va + i * PAGE_SIZE, 0);
    MapPageInPage(ph, root, va + i * PAGE_SIZE, pa + i * PAGE_SIZE);
  }

  lemma CachedInPage(ph: Phys, root: nat, va: nat, i: nat, idx: (nat, nat, nat))
    requires PhysOk(ph) && i > 0 && Cached(ph, root, PageOf(va) + i * PAGE_SIZE, idx)
    ensures Cached(ph, root, va + i * PAGE_SIZE, idx)
  {
    hide PhysOk, VAextract, PTE2PA, Entry;
    IndicesInPage(va, i - 1);
    IndicesInPage(va + (i - 1) * PAGE_SIZE, 0);
  }

  lemma EnsureChildCases(ph: Phys, t: nat, i: nat)
    requires PhysOk(ph)
    ensures Word(ph, t + i * 8) % 2 == 1 ==> EnsureChild(ph, t, i) == Outcome(ph, true)
    ensures Word(ph, t + i * 8) % 2 != 1 ==> var c := Usable(ph, PAGE_SIZE);
      EnsureChild(ph, t, i) ==
        if c == 0 then Outcome(ph, false)
        else Outcome(PokeWord(Insert(ph, c, PAGE_SIZE), t + i * 8, SetPTE(c, V)), true)
  {
    hide PhysOk, Usable, Word, Insert, PokeWord, SetPTE;
  }

  lemma PteFits(pa: nat)
    ensures SetPTE(pa, V) < WORD_RANGE && SetPTE(pa, RWXV) < WORD_RANGE
  {
  }

  /** The index cache of allocate before the page at v: empty, or the indices of the page before,
      all of whose entries are in use. */
  ghost predicate Cached(ph: Phys, root: nat, v: nat, idx: (nat, nat, nat))
    requires PhysOk(ph)
  {
    idx == (NO_INDEX, NO_INDEX, NO_INDEX)
    || (v >= PAGE_SIZE && PathReady(ph, root, v - PAGE_SIZE)
        && idx == (VAextract(v - PAGE_SIZE, 0), VAextract(v - PAGE_SIZE, 1), VAextract(v - PAGE_SIZE, 2)))
  }

  lemma NothingCached(ph: Phys, root: nat, v: nat)
    requires PhysOk(ph)
    ensures Cached(ph, root, v, (NO_INDEX, NO_INDEX, NO_INDEX))
  {
  }

  /** Why the skipped steps would have done nothing. */
  lemma CachedLevels(ph: Phys, root: nat, v: nat, idx: (nat, nat, nat))
    requires PhysOk(ph) && Cached(ph, root, v, idx) && v < VA_END
    ensures VAextract(v, 0) == idx.0 ==> EnsureChild(ph, root, idx.0) == Outcome(ph, true)
    ensures VAextract(v, 1) == idx.1 ==>
      VAextract(v, 0) == idx.0 && EnsureChild(ph, PTE2PA(Entry(ph, root, idx.0)), idx.1) == Outcome(ph, true)
    ensures VAextract(v, 2) != idx.2
  {
    hide PhysOk, Word, PTE2PA, VAextract;
    if idx != (NO_INDEX, NO_INDEX, NO_INDEX) {
      NextPageIndices(v - PAGE_SIZE);
    }
  }

  lemma AllocateCases(ph: Phys, root: nat, va: nat, length: nat)
    requires PhysOk(ph) && length > 0
    ensures var n := RoundUp(length); var p := Usable(ph, n);
      && n % PAGE_SIZE == 0 && n > 0
      && (p == 0 ==> Allocation.Allocate(ph, root, va, length) == (ph, 0))
      && (p != 0 ==> PhysOk(Insert(ph, p, n)) && var r := MapPages(Insert(ph, p, n), root, va, p, n / PAGE_SIZE);
            Allocation.Allocate(ph, root, va, length).0 == r.ph
            && Allocation.Allocate(ph, root, va, length).1 == if r.ok then p else 0)
  {
    hide MapPages, PhysOk, Usable, Insert, Gap;
    if Usable(ph, RoundUp(length)) != 0 {
      InsertValid(ph, Usable(ph, RoundUp(length)), RoundUp(length));
    }
  }

  lemma AllocatedForest(ph: Phys, k: map<nat, Kind>, root: nat, va: nat, length: nat, k': map<nat, Kind>, p: nat,
                        m: nat)
    requires PhysOk(ph) && length > 0 && Allocated(ph, k, root, va, length, k', p, m)
    ensures Forest(Allocation.Allocate(ph, root, va, length).0, k')
  {
    hide Forest, PhysOk, Allocation.Allocate, Usable;
  }

  lemma MapPagesNext(ph: Phys, root: nat, va: nat, pa: nat, i: nat)
    requires PhysOk(ph) && MapPages(ph, root, va, pa, i).ok
    ensures MapPages(ph, root, va, pa, i + 1) ==
      MapPage(MapPages(ph, root, va, pa, i).ph, root, va + i * PAGE_SIZE, pa + i * PAGE_SIZE)
  {
    hide PhysOk, MapPage;
  }

  lemma FreshBlock(ph: Phys, k: map<nat, Kind>, root: nat, va: nat, p: nat, n: nat)
    requires PhysOk(ph) && Forest(ph, k) && IsRoot(k, root) && Gap(ph, p, n)
    requires p % PAGE_SIZE == 0 && n % PAGE_SIZE == 0 && n > 0
    ensures var ph1, k1 := Insert(ph, p, n), k[p := Data(root, va)];
      && PhysOk(ph1) && Forest(ph1, k1) && IsRoot(k1, root) && p in k1 && k1[p] == Data(root, va)
      && InBlock(ph1, p, p, n)
      && Paged(ph1) && MapPages(ph1, root, va, p, 0) == Outcome(ph1, true)
  {
    hide PhysOk, Gap, Forest, Paged;
    InsertForest(ph, k, p, n, Data(root, va));
    ForestFacts(Insert(ph, p, n), k[p := Data(root, va)]);
  }

  lemma PageReady(ph: Phys, k: map<nat, Kind>, root: nat, va: nat, p: nat, n: nat, i: nat, idx: (nat, nat, nat))
    requires PhysOk(ph) && Forest(ph, k) && IsRoot(k, root) && va % PAGE_SIZE == 0 && va + n <= VA_END
    requires p in k && k[p] == Data(root, va) && InBlock(ph, p, p, n) && 0 < i && i * PAGE_SIZE <= n
    requires MapPages(ph, root, va, p, i).ok
    requires var v := va + (i - 1) * PAGE_SIZE; idx == (VAextract(v, 0), VAextract(v, 1), VAextract(v, 2))
    ensures Paged(MapPages(ph, root, va, p, i).ph)
    ensures Cached(MapPages(ph, root, va, p, i).ph, root, va + i * PAGE_SIZE, idx)
  {
    hide PhysOk, Forest, MapPages, PathReady, Paged, VAextract, MapsRange;
    var k', m := MapPagesForest(ph, k, root, va, p, i);
    ForestFacts(MapPages(ph, root, va, p, i).ph, k');
    assert va + i * PAGE_SIZE - PAGE_SIZE == va + (i - 1) * PAGE_SIZE;
  }

  /** The loop state of act_virt: the last len of the first it bytes are still to be processed,
      they lie in one page, and that page is at pa. */
  ghost predicate Chunk(ph: Phys, root: nat, v: nat, it: nat, len: nat, vpn: nat, pa: nat)
    requires PhysOk(ph)
  {
    && len <= it && (len == 0 <==> it == 0)
    && pa == PageTable.Convert(ph, root, v + it - len) != 0
    && len <= PAGE_SIZE - (v + it - len) % PAGE_SIZE
    && vpn == (if it == 0 then 0 else Vpn(v + it - 1) * PAGE_SIZE)
    && forall x :: v <= x < v + it ==> PageTable.Convert(ph, root, x) != 0
  }

  lemma ChunkStep(ph: Phys, root: nat, v: nat, it: nat, len: nat, vpn: nat, pa: nat)
    requires PhysOk(ph) && Chunk(ph, root, v, it, len, vpn, pa)
    ensures And(v + it, 0x7f_ffff_f000) == Vpn(v + it) * PAGE_SIZE
    ensures it > 0 && vpn == Vpn(v + it) * PAGE_SIZE ==>
      len + 1 <= PAGE_SIZE - (v + it - len) % PAGE_SIZE && PageTable.Convert(ph, root, v + it) != 0
  {
    hide PhysOk, And, Vpn, PageTable.Convert;
    PageMask(v + it);
    if it > 0 && vpn == Vpn(v + it) * PAGE_SIZE {
      NextByte(v + it - 1);
      SamePage(v + it - len, len - 1);
      ConvertAhead(ph, root, v + it - len, len);
    }
  }

  lemma ViewAhead(ph: Phys, root: nat, x: nat, len: nat, i: nat)
    requires PhysOk(ph) && i < len <= PAGE_SIZE - x % PAGE_SIZE && PageTable.Convert(ph, root, x) != 0
    requires Readable(ph, PageTable.Convert(ph, root, x), len)
    ensures View(ph, root, x + i) == Some(Bytes(ph, PageTable.Convert(ph, root, x), len)[i])
  {
    hide PhysOk, PageTable.Convert, Readable;
    ConvertAhead(ph, root, x, i);
  }

  lemma PutNothing(ph: Phys, root: nat, v: nat, s: seq<byte>)
    requires PhysOk(ph)
    ensures PutBytes(ph, root, v, s[..0]) == ph
  {
  }

  lemma ConvertAfter(ph: Phys, k: map<nat, Kind>, root: nat, v: nat, s: seq<byte>, x: nat)
    requires PhysOk(ph) && Forest(ph, k) && IsRoot(k, root)
    ensures PageTable.Convert(PutBytes(ph, root, v, s), root, x) == PageTable.Convert(ph, root, x)
  {
    hide PhysOk, PageTable.Convert, Forest, PutBytes;
    PutBytesForest(ph, k, root, v, s);
    ConvertFrame(ph, PutBytes(ph, root, v, s), k, root, x);
  }

  lemma TableBlock(ph: Phys, k: map<nat, Kind>, c: nat)
    requires PhysOk(ph) && Forest(ph, k) && IsTable(k, c)
    ensures LOW_END <= c < ph.range && InBlock(ph, c, c, 1) && c in ph.ext
  {
  }

  lemma UnlinkIs(ph: Phys, t: nat, i: nat, c: nat)
    requires c in ph.ext
    ensures Unlink(ph, t, i, c) == PokeWord(Erase(ph, c), t + i * 8, 0)
  {
    hide Erase, PokeWord;
  }

  /** The state of CleanChildren after i entries of table t. */
  ghost predicate Cleaned(ph: Phys, k: map<nat, Kind>, ph': Phys, k': map<nat, Kind>, t: nat, i: nat, empty: bool)
    requires PhysOk(ph) && IsTable(k, t)
  {
    && Pruned(ph, k, ph', k', k[t].root) && t in k' && OthersSame(ph, ph', k', t) && TableDone(ph', t, i)
    && (empty <==> forall j :: 0 <= j < i ==> Entry(ph', t, j) == 0)
    && (forall b :: b in k && b !in k' ==> k[b].Table? && k[b].level == 2)
    && (k' == k ==> ph' == ph)
  }

  lemma StartCleaning(ph: Phys, k: map<nat, Kind>, t: nat)
    requires PhysOk(ph) && Forest(ph, k) && IsTable(k, t)
    ensures Cleaned(ph, k, ph, k, t, 0, true)
  {
  }

  /** What an entry of t says before its turn, and that skipping it when it is unused is right. */
  lemma CleaningRow(ph: Phys, k: map<nat, Kind>, ph1: Phys, k1: map<nat, Kind>, t: nat, i: nat, empty: bool)
    requires PhysOk(ph) && IsTable(k, t) && k[t].level == 1 && i < 512 && Cleaned(ph, k, ph1, k1, t, i, empty)
    ensures PhysOk(ph1) && IsTable(k1, t) && k1[t] == k[t]
    ensures var w := Entry(ph1, t, i);
      if w % 2 == 1 then
        IsTable(k1, PTE2PA(w)) && k1[PTE2PA(w)] == NodeAt(k1, t, i)
        && (!Barren(ph1, PTE2PA(w)) ==> Cleaned(ph, k, ph1, k1, t, i + 1, false))
      else Cleaned(ph, k, ph1, k1, t, i + 1, empty)
  {
    hide PhysOk, Forest, Entry, Barren, PTE2PA, SameTranslations, KeepsData, OthersSame, Leafless;
    EntryInUse(ph1, k1, t, i);
  }

  lemma CleanedStep(ph: Phys, k: map<nat, Kind>, ph1: Phys, k1: map<nat, Kind>, t: nat, i: nat, empty: bool, c: nat)
    requires PhysOk(ph) && IsTable(k, t) && k[t].level == 1 && i < 512 && IsRoot(k, k[t].root)
    requires Cleaned(ph, k, ph1, k1, t, i, empty)
    requires IsTable(k1, t) && IsTable(k1, c) && PhysOk(ph1)
    requires k1[c] == NodeAt(k1, t, i) && Barren(ph1, c) && c in ph1.ext
    ensures Cleaned(ph, k, Unlink(ph1, t, i, c), k1 - {c}, t, i + 1, empty)
  {
    hide PhysOk, Forest, Entry, Barren, PTE2PA, SameTranslations, KeepsData, OthersSame, Leafless, Pruned, Unlink,
         EntryDone, SameEntriesBut;
    PrunedForest(ph, k, ph1, k1, k[t].root);
    UnlinkPrunes(ph1, k1, t, i, c);
    var ph2, k2 := Unlink(ph1, t, i, c), k1 - {c};
    PrunedForest(ph1, k1, ph2, k2, k[t].root);
    PrunedTrans(ph, k, ph1, k1, ph2, k2, k[t].root);
    OnlyOneEntry(ph, ph1, ph2, k1, k2, t, i);
    forall j | 0 <= j < i + 1 ensures EntryDone(ph2, t, j) {
      if j == i {
        UnusedDone(ph2, t, j);
      } else {
        EntryLeadsDown(ph2, k2, t, t, j);
        EntryDoneFrame(ph1, ph2, k2, t, t, j);
      }
    }
  }

  lemma UnusedDone(ph: Phys, t: nat, j: nat)
    requires PhysOk(ph) && Entry(ph, t, j) == 0
    ensures EntryDone(ph, t, j)
  {
  }

  lemma PrunedForest(ph: Phys, k: map<nat, Kind>, ph': Phys, k': map<nat, Kind>, root: nat)
    requires PhysOk(ph) && Pruned(ph, k, ph', k', root)
    ensures PhysOk(ph') && Forest(ph', k') && forall b :: b in k' ==> b in k && k'[b] == k[b]
    ensures IsRoot(k, root) ==> IsRoot(k', root)
  {
    hide PhysOk, Forest, SameTranslations, KeepsData, Leafless;
  }

  lemma OnlyOneEntry(ph: Phys, ph1: Phys, ph2: Phys, k1: map<nat, Kind>, k2: map<nat, Kind>, t: nat, i: nat)
    requires PhysOk(ph) && PhysOk(ph1) && PhysOk(ph2) && (forall b :: b in k2 ==> b in k1 && k2[b] == k1[b])
    requires SameEntriesBut(ph1, ph2, k1, t, i) && OthersSame(ph, ph1, k1, t) && IsTable(k1, t)
    ensures OthersSame(ph1, ph2, k2, t) && OthersSame(ph, ph2, k2, t)
    ensures forall j: nat :: j < 512 && j != i ==> Entry(ph2, t, j) == Entry(ph1, t, j)
  {
    hide PhysOk, Entry;
  }

  lemma FinishCleaning(ph: Phys, k: map<nat, Kind>, ph': Phys, k': map<nat, Kind>, t: nat, empty: bool)
    requires PhysOk(ph) && IsTable(k, t) && PhysOk(ph') && Cleaned(ph, k, ph', k', t, 512, empty)
    ensures empty <==> Barren(ph', t)
  {
    hide PhysOk, Entry, Pruned, OthersSame, TableDone;
  }

  /** The state of CleanPt after i entries of the root table. */
  ghost predicate RootCleaned(ph: Phys, k: map<nat, Kind>, ph': Phys, k': map<nat, Kind>, root: nat, i: nat)
    requires PhysOk(ph)
  {
    Pruned(ph, k, ph', k', root) && RootDone(ph', root, i) && (k' == k ==> ph' == ph)
  }

  lemma StartRoot(ph: Phys, k: map<nat, Kind>, root: nat)
    requires PhysOk(ph) && Forest(ph, k) && IsRoot(k, root)
    ensures RootCleaned(ph, k, ph, k, root, 0)
  {
  }

  lemma RootRow(ph: Phys, k: map<nat, Kind>, ph1: Phys, k1: map<nat, Kind>, root: nat, i: nat)
    requires PhysOk(ph) && IsRoot(k, root) && i < 512 && RootCleaned(ph, k, ph1, k1, root, i)
    ensures PhysOk(ph1) && Forest(ph1, k1) && IsRoot(k1, root)
    ensures var w := Entry(ph1, root, i);
      if w % 2 == 1 then IsTable(k1, PTE2PA(w)) && k1[PTE2PA(w)] == NodeAt(k1, root, i)
      else RootCleaned(ph, k, ph1, k1, root, i + 1)
  {
    hide PhysOk, Forest, Entry, PTE2PA, Pruned, Barren;
    PrunedForest(ph, k, ph1, k1, root);
    EntryInUse(ph1, k1, root, i);
  }

  /** After the children of entry i's table have been cleaned: what was done stays done, and entry i
      is done unless its table has become empty. */
  lemma RootChildren(ph: Phys, k: map<nat, Kind>, ph1: Phys, k1: map<nat, Kind>, ph2: Phys, k2: map<nat, Kind>,
                     root: nat, i: nat, c: nat)
    requires PhysOk(ph) && PhysOk(ph1) && IsRoot(k, root) && i < 512 && RootCleaned(ph, k, ph1, k1, root, i)
    requires Forest(ph1, k1) && IsRoot(k1, root) && Entry(ph1, root, i) % 2 == 1 && c == PTE2PA(Entry(ph1, root, i))
    requires IsTable(k1, c) && k1[c] == NodeAt(k1, root, i)
    requires Pruned(ph1, k1, ph2, k2, root) && c in k2 && TableDone(ph2, c, 512)
    requires OthersSame(ph1, ph2, k2, c) && (k2 == k1 ==> ph2 == ph1)
    ensures PhysOk(ph2) && Forest(ph2, k2) && IsRoot(k2, root) && IsTable(k2, c) && k2[c] == NodeAt(k2, root, i)
    ensures RootCleaned(ph, k, ph2, k2, root, if Barren(ph2, c) then i else i + 1)
  {
    hide PhysOk, Forest, Entry, Barren, PTE2PA, Pruned, EntryDone, SameTranslations, TableDone;
    PrunedForest(ph, k, ph1, k1, root);
    PrunedForest(ph1, k1, ph2, k2, root);
    PrunedTrans(ph, k, ph1, k1, ph2, k2, root);
    PrunedSubset(ph, k, ph1, k1, ph2, k2, root);
    RootDoneBeside(ph1, k1, ph2, k2, root, i, c);
    if !Barren(ph2, c) {
      RootDoneNext(ph2, root, i, c);
    }
  }

  lemma PrunedSubset(ph: Phys, k: map<nat, Kind>, ph1: Phys, k1: map<nat, Kind>, ph2: Phys, k2: map<nat, Kind>,
                     root: nat)
    requires PhysOk(ph) && PhysOk(ph1) && Pruned(ph, k, ph1, k1, root) && Pruned(ph1, k1, ph2, k2, root)
    ensures k2 == k ==> k1 == k
  {
    hide PhysOk, Forest, SameTranslations, KeepsData, Leafless;
  }

  lemma RootDoneNext(ph: Phys, root: nat, i: nat, c: nat)
    requires PhysOk(ph) && RootDone(ph, root, i) && c == PTE2PA(Entry(ph, root, i))
    requires !Barren(ph, c) && TableDone(ph, c, 512)
    ensures RootDone(ph, root, i + 1)
  {
    hide PhysOk, Entry, Barren, PTE2PA;
  }

  lemma RootDoneBeside(ph1: Phys, k1: map<nat, Kind>, ph2: Phys, k2: map<nat, Kind>, root: nat, i: nat, c: nat)
    requires PhysOk(ph1) && PhysOk(ph2) && Forest(ph2, k2) && IsRoot(k2, root) && i < 512
    requires RootDone(ph1, root, i) && IsTable(k2, c) && k2[c].level == 1
    requires Entry(ph1, root, i) % 2 == 1 && c == PTE2PA(Entry(ph1, root, i)) && OthersSame(ph1, ph2, k2, c)
    ensures RootDone(ph2, root, i) && Entry(ph2, root, i) == Entry(ph1, root, i)
  {
    hide PhysOk, Forest, Entry, Barren, PTE2PA, EntryDone;
    assert Entry(ph2, root, i) == Entry(ph1, root, i);
    forall j: nat | j < i
      ensures EntryDone(ph2, root, j)
      ensures Entry(ph2, root, j) % 2 == 1 ==> TableDone(ph2, PTE2PA(Entry(ph2, root, j)), 512)
    {
      assert Entry(ph2, root, j) == Entry(ph1, root, j) && EntryDone(ph1, root, j);
      RowsApart(ph2, k2, root, i, j);
      EntryDoneFrame(ph1, ph2, k2, c, root, j);
      EntryInUse(ph2, k2, root, j);
      if Entry(ph2, root, j) % 2 == 1 {
        TableDoneFrame(ph1, ph2, k2, c, PTE2PA(Entry(ph2, root, j)));
      }
    }
  }

  /** The table of entry i has become empty and goes. */
  lemma RootPrune(ph: Phys, k: map<nat, Kind>, ph2: Phys, k2: map<nat, Kind>, root: nat, i: nat, c: nat)
    requires PhysOk(ph) && PhysOk(ph2) && IsRoot(k, root) && i < 512 && RootCleaned(ph, k, ph2, k2, root, i)
    requires Forest(ph2, k2) && IsRoot(k2, root) && IsTable(k2, c) && k2[c] == NodeAt(k2, root, i) && Barren(ph2, c)
    ensures c in ph2.ext && RootCleaned(ph, k, Unlink(ph2, root, i, c), k2 - {c}, root, i + 1)
  {
    hide PhysOk, Forest, Entry, Barren, PTE2PA, Pruned, TableDone, Unlink, SameEntriesBut, RootDone;
    UnlinkPrunes(ph2, k2, root, i, c);
    var ph3, k3 := Unlink(ph2, root, i, c), k2 - {c};
    PrunedForest(ph, k, ph2, k2, root);
    PrunedForest(ph2, k2, ph3, k3, root);
    PrunedTrans(ph, k, ph2, k2, ph3, k3, root);
    RootDoneAfterPrune(ph2, k2, ph3, k3, root, i);
    assert c in k && c !in k3;
  }

  lemma RootDoneAfterPrune(ph2: Phys, k2: map<nat, Kind>, ph3: Phys, k3: map<nat, Kind>, root: nat, i: nat)
    requires PhysOk(ph2) && PhysOk(ph3) && Forest(ph3, k3) && IsRoot(k2, root) && IsRoot(k3, root) && i < 512
    requires (forall b :: b in k3 ==> b in k2 && k3[b] == k2[b]) && RootDone(ph2, root, i)
    requires SameEntriesBut(ph2, ph3, k2, root, i) && Entry(ph3, root, i) == 0
    ensures RootDone(ph3, root, i + 1)
  {
    hide PhysOk, Forest, Entry, Barren, PTE2PA, EntryDone, SameEntriesBut, OthersSame;
    OthersSameRefl(ph2, k2, root);
    OnlyOneEntry(ph2, ph2, ph3, k2, k3, root, i);
    UnusedDone(ph3, root, i);
    forall j: nat | j < i
      ensures EntryDone(ph3, root, j)
      ensures Entry(ph3, root, j) % 2 == 1 ==> TableDone(ph3, PTE2PA(Entry(ph3, root, j)), 512)
    {
      assert Entry(ph3, root, j) == Entry(ph2, root, j) && EntryDone(ph2, root, j);
      EntryLeadsDown(ph3, k3, root, root, j);
      EntryDoneFrame(ph2, ph3, k3, root, root, j);
      EntryInUse(ph3, k3, root, j);
      if Entry(ph3, root, j) % 2 == 1 {
        TableDoneFrame(ph2, ph3, k3, root, PTE2PA(Entry(ph3, root, j)));
      }
    }
  }

  lemma OthersSameRefl(ph: Phys, k: map<nat, Kind>, t: nat)
    requires PhysOk(ph)
    ensures OthersSame(ph, ph, k, t)
  {
  }

  lemma FinishRoot(ph: Phys, k: map<nat, Kind>, ph': Phys, k': map<nat, Kind>, root: nat)
    requires PhysOk(ph) && IsRoot(k, root) && PhysOk(ph') && RootCleaned(ph, k, ph', k', root, 512)
    ensures Pruned(ph, k, ph', k', root)
    ensures forall b :: SubTable(k, root, b) ==> (b in k' <==> !Leafless(ph, k[b]))
    ensures forall b :: SubTable(k', root, b) ==> !Barren(ph', b) && !Leafless(ph', k'[b])
    ensures (forall b :: SubTable(k, root, b) ==> !Leafless(ph, k[b])) ==> ph' == ph && k' == k
  {
    hide PhysOk, Forest, Entry, Barren, PTE2PA, KeepsData, RootDone, Leafless, SameTranslations;
    PrunedForest(ph, k, ph', k', root);
    forall b | SubTable(k', root, b) ensures !Barren(ph', b) && !Leafless(ph', k'[b]) {
      AllDone(ph', k', root, b);
    }
    forall b | SubTable(k, root, b) && b in k' ensures !Leafless(ph, k[b]) {
      LeaflessFrame(ph, ph', k, k[b]);
    }
    if forall b :: SubTable(k, root, b) ==> !Leafless(ph, k[b]) {
      assert forall b :: b in k ==> b in k';
      assert k' == k;
    }
  }

  lemma NothingOwned(ph: Phys, t: nat, n: nat, s: set<nat>)
    requires PhysOk(ph) && n <= 2
    ensures s + Owned(ph, t, n, 0) == s
  {
    hide PhysOk;
  }

  lemma RootClear(ph: Phys, k: map<nat, Kind>, root: nat)
    requires PhysOk(ph) && IsRoot(k, root)
    ensures Clear(ph, k, {}, root)
  {
    hide PhysOk, Entry, PTE2PA;
  }

  lemma LeafRange(ph: Phys, k: map<nat, Kind>, s: set<nat>, ph': Phys, t: nat, j: nat)
    requires PhysOk(ph) && Forest(ph, k) && IsTable(k, t) && k[t].level == 2 && j < 512 && Entry(ph, t, j) % 2 == 1
    requires Residue(ph, s, ph')
    ensures LOW_END <= PTE2PA(Entry(ph, t, j)) < ph'.range
  {
    hide PhysOk, Forest, Entry, PTE2PA, Walk, EntryOk, Width;
    TableFacts(ph, k, t);
    EntryInUse(ph, k, t, j);
    LeafTranslation(ph, k, t, j);
    LeafBound(k[t].prefix, j);
    var r, x := k[t].root, 512 * k[t].prefix + j;
    TranslateFindsData(ph, k, r, x);
    var p: nat :| LeafInto(ph, k, r, x, Translate(ph, r, x), p);
    InBlockRange(ph, p, Translate(ph, r, x));
  }

  lemma InBlockRange(ph: Phys, p: nat, a: nat)
    requires PhysOk(ph) && InBlock(ph, p, a, PAGE_SIZE)
    ensures LOW_END <= a < ph.range
  {
  }

  lemma TableRange(ph: Phys, k: map<nat, Kind>, s: set<nat>, ph': Phys, c: nat)
    requires PhysOk(ph) && Forest(ph, k) && IsTable(k, c) && Residue(ph, s, ph')
    ensures LOW_END <= c < ph'.range && Holders(ph, c) == {c}
  {
    hide PhysOk, Forest, Holders;
    TableBlock(ph, k, c);
    HoldersOne(ph, c, c);
  }
}
