/** src/driver.h: the driver over the address manager and the device memory. */
module DeviceDriver {
  import opened Options
  import opened Sequences
  import opened Words
  import opened Sv39
  import opened PageTable
  import opened Allocation
  import opened Capacity
  import opened VirtualMemory
  import opened Tasks
  import AR = AddressRanges
  import AM = AddressManager
  import P = Phys
  import DeviceMemory

  /** RAM_RANGE. */
  const RAM_RANGE: nat := 0x1_0000_0000

  class Driver {
    const manager: AM.Manager
    const memory: DeviceMemory.Memory
    /** The page-table root of every task: m_ctx_lst_. */
    var roots: map<nat, nat>

    ghost predicate Valid()
      reads this, manager, manager.repr, memory, memory.pm
    {
      && manager.Valid() && memory.Valid() && memory.pm.cursor.At?
      && manager.lists.Keys == roots.Keys && Inv(Now())
    }

    ghost function Now(): State
      reads this, manager, memory, memory.pm
    {
      State(memory.pm.state, memory.kinds, roots, ListRanges(manager.lists))
    }

    constructor ()
      ensures Valid() && roots == map[] && memory.pm.state.ext == map[] && memory.pm.state.range == 0x1_0000_0000
      ensures P.Usable(memory.pm.state, PAGE_SIZE) == 0x2000_0000 && |FreePages(memory.pm.state)| == 0xE_0000
      ensures fresh(manager) && fresh(manager.repr) && fresh(memory) && fresh(memory.pm)
    {
      hide AM.Separate, Inv, P.Usable, FreePages;
      manager := new AM.Manager();
      memory := new DeviceMemory.Memory(RAM_RANGE);
      roots := map[];
      new;
      MemoryForest(memory.pm.state, memory.kinds);
      AllFree(memory.pm.state);
      InitialInv(Now());
    }

    /** create_device_mem: false if the task exists or there is no page for its root table. */
    method CreateDeviceMem(task: nat) returns (ok: bool)
      requires Valid()
      modifies this, manager, memory, memory.pm
      ensures Valid() && manager.repr == old(manager.repr)
      ensures task in old(roots) ==> !ok && Now() == old(Now())
      ensures task !in old(roots) ==> Created(old(Now()), task, Now()) && (ok <==> roots[task] != 0)
    {
      hide Inv, AM.Separate, AM.Chained, AM.Ranges, ListRanges, P.PhysOk, Forest, P.Usable, P.Insert;
      if task in roots {
        return false;
      }
      var created := manager.CreateNewContext(task);
      ListsCreate(old(manager.lists), task);
      var root := memory.CreateRootPt();
      roots := roots[task := root];
      CreateInv(old(Now()), task, Now());
      return root != 0;
    }

    /** alloc_local_mem: false where the source throws. The range stays listed when it is the
        physical memory that has run out; paddr is 0 then. */
    method AllocLocalMem(size: nat, ty: AR.BufferType, task: nat) returns (ok: bool, vaddr: nat, ghost paddr: nat)
      requires Valid()
      requires task in roots ==> roots[task] != 0 && AR.Safe(Now().ranges[task], AR.AlignedSize(size), ty)
      modifies this, manager, manager.repr, memory, memory.pm
      ensures Valid() && fresh(manager.repr - old(manager.repr))
      ensures Step(old(Now()), Alloc(task, size, ty), Now())
      ensures Now() == old(Now()) <==> !Placeable(old(Now()), task, size, ty)
      ensures Placeable(old(Now()), task, size, ty) ==>
        AllocatedAt(old(Now()), task, size, ty, Now(), vaddr, paddr)
        && (ok <==> Suffices(old(Now()).ph, old(Now()).roots[task], vaddr, size))
      ensures ok <==> paddr != 0
    {
      hide Inv, AM.Separate, AM.Chained, AM.Ranges, ListRanges, P.PhysOk, Forest, P.Usable, P.RoundUp, AR.Place,
           AR.Safe, AR.AlignedSize, Splice, Allocated, Allocate, Suffices;
      if size == 0 || task !in roots {
        return false, 0, 0;
      }
      ghost var s := Now();
      var placed;
      placed, vaddr := manager.AllocMemory(task, task, size, ty);
      ListAt(old(manager.lists), task);
      if !placed {
        return false, 0, 0;
      }
      ListsAlloc(old(manager.lists), manager.lists, task);
      PlaceOk(s, task, size, ty, vaddr);
      var pa;
      ghost var p, m;
      pa, p, m := memory.Allocate(roots[task], vaddr, size);
      paddr := pa;
      assert AllocatedAt(s, task, size, ty, Now(), vaddr, paddr);
      AllocInv(s, task, size, ty, Now(), vaddr, paddr);
      AllocSucceeds(s, task, size, ty, Now(), vaddr, paddr);
      PlacedChanges(s, task, size, ty, Now(), vaddr, paddr);
      return pa != 0, vaddr, paddr;
    }

    /** upload: the first n bytes have been written; false where the source throws. */
    method Upload(va: nat, src: seq<byte>, task: nat) returns (ok: bool, ghost n: nat)
      requires Valid() && va + |src| <= VA_END
      modifies this, memory.pm
      ensures Valid() && manager.repr == old(manager.repr)
      ensures Step(old(Now()), Tasks.Upload(task, va, src), Now())
      ensures src == [] || task !in roots || roots[task] == 0 ==> !ok && Now() == old(Now())
      ensures src != [] && task in roots && roots[task] != 0 ==>
        Uploaded(old(Now()), task, va, src, Now(), n) && (ok <==> n == |src|)
    {
      hide Inv, AM.Separate, AM.Chained, ListRanges, P.PhysOk, Forest, PutBytes, Convert;
      if src == [] || task !in roots {
        return false, 0;
      }
      ghost var s := Now();
      TaskRoot(s, task);
      var flag;
      flag, n := memory.WriteVirt(roots[task], va, src);
      if roots[task] == 0 {
        NothingReached(s.ph, va, src, n);
      } else {
        UploadInv(s, task, va, src, Now(), n);
      }
      return flag, n;
    }

    /** download: the first n bytes of out are what the task sees from va on; false where the source throws. */
    method Download(va: nat, size: nat, task: nat, out: array<byte>) returns (ok: bool, ghost n: nat)
      requires Valid() && size <= out.Length
      modifies out
      ensures n <= size && (ok ==> size > 0 && task in roots && roots[task] != 0)
      ensures size > 0 && task in roots && roots[task] != 0 ==>
        Mapped(Now(), task, va, size, n) && Shows(Now(), task, va, out[..n]) && (ok <==> n == size)
      ensures out[n..] == old(out[n..])
    {
      hide Inv, AM.Separate, AM.Chained, ListRanges, P.PhysOk, Forest, Convert, View, Reaches;
      if size == 0 || task !in roots {
        return false, 0;
      }
      TaskRoot(Now(), task);
      NothingMapped(memory.pm.state, va);
      var flag;
      flag, n := memory.ReadVirt(roots[task], va, size, out);
      FirstReached(memory.pm.state, roots[task], va, size, n);
      ShowsBytes(Now(), task, va, out[..n]);
      return flag, n;
    }
  }

  ghost function ListRanges(lists: map<nat, seq<AM.Item>>): map<nat, seq<AR.Range>>
  {
    map t | t in lists :: AM.Ranges(lists[t])
  }

  lemma ListsCreate(lists: map<nat, seq<AM.Item>>, t: nat)
    ensures ListRanges(lists[t := []]) == ListRanges(lists)[t := []]
  {
    assert AM.Ranges([]) == [];
  }

  lemma MemoryForest(ph: P.Phys, k: map<nat, Kind>)
    requires k == map[] && ph.ext == map[] && Forest(ph, k)
    ensures P.PhysOk(ph)
  {
  }

  lemma ListAt(lists: map<nat, seq<AM.Item>>, t: nat)
    requires t in lists
    ensures t in ListRanges(lists) && ListRanges(lists)[t] == AM.Ranges(lists[t])
  {
    hide AM.Ranges;
  }

  lemma ListsAlloc(lists: map<nat, seq<AM.Item>>, lists': map<nat, seq<AM.Item>>, t: nat)
    requires t in lists && lists'.Keys == lists.Keys && forall c :: c in lists && c != t ==> lists'[c] == lists[c]
    ensures ListRanges(lists') == ListRanges(lists)[t := AM.Ranges(lists'[t])]
    ensures t in ListRanges(lists) && ListRanges(lists)[t] == AM.Ranges(lists[t])
  {
    hide AM.Ranges;
  }

  lemma PlaceOk(s: State, t: nat, size: nat, ty: AR.BufferType, vaddr: nat)
    requires Inv(s) && HasTask(s, t) && size > 0 && AR.AlignedSize(size) < AR.SEGMENT_SIZE
    requires AR.Safe(s.ranges[t], AR.AlignedSize(size), ty)
    requires var p := AR.Place(s.ranges[t], AR.AlignedSize(size), ty); p.Placed? && p.vaddr == vaddr
    ensures IsRoot(s.k, s.roots[t]) && vaddr % PAGE_SIZE == 0 && vaddr + P.RoundUp(size) <= VA_END
  {
    hide P.PhysOk, Forest, Rooted, Covered, AR.WellPlaced, AR.Place, AR.Safe, AR.AlignedSize, Splice;
    assert TaskOk(s, t);
    PlaceFits(s.ranges[t], size, ty, AR.Place(s.ranges[t], AR.AlignedSize(size), ty).at, vaddr);
  }

  lemma TaskRoot(s: State, t: nat)
    requires Inv(s) && t in s.roots
    ensures s.roots[t] != 0 ==> IsRoot(s.k, s.roots[t]) && HasTask(s, t)
  {
    hide P.PhysOk, Forest, Rooted, Covered, AR.WellPlaced;
  }

  lemma NothingMapped(ph: P.Phys, va: nat)
    requires P.PhysOk(ph)
    ensures Convert(ph, 0, va) == 0
  {
    DeviceMemory.NoRoot(ph, va);
  }

  /** A task without a root table reaches no byte. */
  lemma NothingReached(ph: P.Phys, va: nat, src: seq<byte>, n: nat)
    requires P.PhysOk(ph) && src != [] && Reaches(ph, 0, va, |src|, n)
    ensures n == 0 && PutBytes(ph, 0, va, src[..n]) == ph
  {
    hide P.PhysOk, Convert;
    NothingMapped(ph, va);
  }

  lemma FirstReached(ph: P.Phys, root: nat, va: nat, size: nat, n: nat)
    requires P.PhysOk(ph) && Reaches(ph, root, va, size, n)
    ensures n <= size && (size > 0 && n == size ==> Convert(ph, root, va) != 0)
  {
    hide P.PhysOk, Convert;
  }

  lemma ShowsBytes(s: State, t: nat, va: nat, bytes: seq<byte>)
    requires P.PhysOk(s.ph) && t in s.roots
    requires forall i :: 0 <= i < |bytes| ==> View(s.ph, s.roots[t], va + i) == Some(bytes[i])
    ensures Shows(s, t, va, bytes)
  {
    hide P.PhysOk, View;
  }
}
