/** src/driver.h, namespace addr: where allocVaddr and insertNewItem put a new range among
    the ranges of a context, as a function on the list of ranges. */
module AddressRanges {
  import opened Sequences
  import opened Sv39
  import Phys

  datatype BufferType = ReadWrite | ReadOnly | KernelMem

  datatype Range = Range(vaddr: nat, size: nat)
  {
    function End(): nat { vaddr + size }
    /** The first page boundary at or after the end. */
    function After(): nat { Phys.RoundUp(vaddr + size) }
  }

  const RO_DATA_BASE: nat := 0x4000_0000
  const RW_DATA_BASE: nat := 0x6000_0000
  const BUF_PARA_BASE: nat := 0x8000_0000
  const BUF_PARA_END: nat := 0xA000_0000
  /** Every segment has this size, and a buffer must be smaller. */
  const SEGMENT_SIZE: nat := 0x2000_0000

  function Base(ty: BufferType): nat
  {
    match ty case ReadOnly => RO_DATA_BASE case ReadWrite => RW_DATA_BASE case KernelMem => BUF_PARA_BASE
  }

  function Limit(ty: BufferType): nat
  {
    Base(ty) + SEGMENT_SIZE
  }

  /** aligned_size(size, BLOCK_SIZE). */
  function AlignedSize(size: nat): (r: nat)
    ensures size <= r < size + 64 && r % 64 == 0
  {
    (size + 63) / 64 * 64
  }

  /** Where the new range goes in the list, and its address. */
  datatype Placement = Failed | Placed(at: nat, vaddr: nat)

  /** The loops that step over the ranges below an address. */
  function Skip(r: seq<Range>, i: nat, bound: nat): (j: nat)
    requires i <= |r|
    ensures i <= j <= |r| && (j < |r| ==> bound <= r[j].vaddr)
    ensures forall x :: i <= x < j ==> r[x].vaddr < bound
    decreases |r| - i
  {
    if i < |r| && r[i].vaddr < bound then Skip(r, i + 1, bound) else i
  }

  /** The loops that look for the first range with enough room behind it. */
  function Scan(r: seq<Range>, i: nat, size: nat, bound: nat): (j: nat)
    requires i < |r|
    ensures i <= j < |r|
    ensures r[j].vaddr < bound && j + 1 < |r| ==> r[j].After() + size <= r[j + 1].vaddr
    ensures forall x :: i <= x < j ==> r[x].vaddr < bound && r[x].After() + size > r[x + 1].vaddr
    decreases |r| - i
  {
    if r[i].vaddr < bound && i + 1 < |r| && r[i].After() + size > r[i + 1].vaddr then Scan(r, i + 1, size, bound) else i
  }

  /** insertNewItem: before a head at the base of the READ_WRITE segment, else behind item i. */
  function Behind(r: seq<Range>, i: nat, vaddr: nat): (p: Placement)
    requires i < |r|
    ensures p.Placed? && p.vaddr == vaddr && p.at <= |r|
  {
    if vaddr == RO_DATA_BASE && r[i].vaddr == RW_DATA_BASE then Placed(0, vaddr) else Placed(i + 1, vaddr)
  }

  function PlaceReadOnly(r: seq<Range>, size: nat): Placement
    requires r != []
  {
    if r[0].vaddr != RO_DATA_BASE then Behind(r, 0, RO_DATA_BASE) else
    var i := Scan(r, 0, size, RW_DATA_BASE);
    if (i + 1 == |r| || r[i + 1].vaddr >= RW_DATA_BASE) && r[i].After() + size > RW_DATA_BASE then Failed
    else Behind(r, i, r[i].After())
  }

  function PlaceReadWrite(r: seq<Range>, size: nat): Placement
    requires r != []
  {
    var s := if r[0].vaddr == RO_DATA_BASE then Skip(r, 0, RW_DATA_BASE) else 0;
    if s == |r| then Behind(r, |r| - 1, RW_DATA_BASE) else
    var i := Scan(r, s, size, BUF_PARA_BASE);
    if i + 1 == |r| && r[i].After() + size > BUF_PARA_BASE then Failed else Behind(r, i, r[i].After())
  }

  function PlaceKernelMem(r: seq<Range>, size: nat): Placement
    requires r != []
  {
    var s := if r[0].vaddr == RO_DATA_BASE || r[0].vaddr == RW_DATA_BASE then Skip(r, 0, BUF_PARA_BASE) else 0;
    if s == |r| then Behind(r, |r| - 1, BUF_PARA_BASE) else
    var i := Scan(r, s, size, BUF_PARA_END);
    if i + 1 == |r| && r[i].After() + size > BUF_PARA_END then Failed else Behind(r, i, r[i].After())
  }

  function Place(r: seq<Range>, size: nat, ty: BufferType): Placement
  {
    if r == [] then Placed(0, Base(ty)) else
    match ty
    case ReadOnly => PlaceReadOnly(r, size)
    case ReadWrite => PlaceReadWrite(r, size)
    case KernelMem => PlaceKernelMem(r, size)
  }

  function Segment(vaddr: nat): BufferType
  {
    if vaddr < RW_DATA_BASE then ReadOnly else if vaddr < BUF_PARA_BASE then ReadWrite else KernelMem
  }

  ghost predicate InSegment(x: Range, ty: BufferType)
  {
    Base(ty) <= x.vaddr && x.End() <= Limit(ty)
  }

  /** What the list of a context promises: ranges start on pages, lie in a segment, and are
      sorted with their page-rounded extents disjoint; the first of each segment is at its base. */
  ghost predicate WellPlaced(r: seq<Range>)
  {
    && (forall i :: 0 <= i < |r| ==>
         r[i].size > 0 && r[i].vaddr % PAGE_SIZE == 0 && InSegment(r[i], Segment(r[i].vaddr)))
    && (forall i, j :: 0 <= i < j < |r| ==> r[i].After() <= r[j].vaddr)
    && (forall i :: 0 <= i < |r| ==> StartsSegment(r, i))
  }

  /** Range i is at the base of its segment if it is the first of it. */
  ghost predicate StartsSegment(r: seq<Range>, i: nat)
    requires i < |r|
  {
    i == 0 || Segment(r[i - 1].vaddr) != Segment(r[i].vaddr) ==> r[i].vaddr == Base(Segment(r[i].vaddr))
  }

  /** A good outcome: nothing placed, or a range of the right segment that keeps the list well placed. */
  ghost predicate Good(r: seq<Range>, size: nat, ty: BufferType)
  {
    match Place(r, size, ty)
    case Failed => true
    case Placed(at, vaddr) =>
      at <= |r| && InSegment(Range(vaddr, size), ty) && WellPlaced(Splice(r, at, Range(vaddr, size)))
  }

  /** Some READ_WRITE range has room behind it within the segment. */
  ghost predicate ReadWriteRoom(r: seq<Range>, size: nat)
  {
    exists i :: 0 <= i < |r| && RoomBehind(r, i, size)
  }

  ghost predicate RoomBehind(r: seq<Range>, i: nat, size: nat)
    requires i < |r|
  {
    Segment(r[i].vaddr) == ReadWrite
    && r[i].After() + size <= (if i + 1 < |r| then r[i + 1].vaddr else BUF_PARA_BASE)
  }

  /** The calls that the list survives: any for KERNEL_MEM; READ_ONLY unless the head is a
      KERNEL_MEM range; READ_WRITE unless there are two KERNEL_MEM ranges and no room left. */
  ghost predicate Safe(r: seq<Range>, size: nat, ty: BufferType)
  {
    match ty
    case KernelMem => true
    case ReadOnly => r == [] || Segment(r[0].vaddr) != KernelMem
    case ReadWrite => |r| < 2 || Segment(r[|r| - 2].vaddr) != KernelMem || ReadWriteRoom(r, size)
  }

  lemma After(x: Range)
    ensures x.End() <= x.After() && x.After() % PAGE_SIZE == 0
    ensures forall a: nat :: a % PAGE_SIZE == 0 && x.End() <= a ==> x.After() <= a
  {
  }

  /** A new range between its neighbours keeps the list well placed. */
  lemma InsertWellPlaced(r: seq<Range>, at: nat, x: Range)
    requires WellPlaced(r) && at <= |r| && x.size > 0 && x.vaddr % PAGE_SIZE == 0 && InSegment(x, Segment(x.vaddr))
    requires at > 0 ==> r[at - 1].After() <= x.vaddr
    requires at < |r| ==> x.End() <= r[at].vaddr
    requires at == 0 || Segment(r[at - 1].vaddr) != Segment(x.vaddr) ==> x.vaddr == Base(Segment(x.vaddr))
    ensures WellPlaced(Splice(r, at, x))
  {
    hide Phys.RoundUp, InSegment, StartsSegment;
    InsertSorted(r, at, x);
    forall i | 0 <= i <= |r| ensures StartsSegment(Splice(r, at, x), i) {
      InsertStarts(r, at, x, i);
    }
  }

  lemma InsertSorted(r: seq<Range>, at: nat, x: Range)
    requires (forall i, j :: 0 <= i < j < |r| ==> r[i].After() <= r[j].vaddr) && at <= |r|
    requires at > 0 ==> r[at - 1].After() <= x.vaddr
    requires at < |r| ==> r[at].vaddr % PAGE_SIZE == 0 && x.End() <= r[at].vaddr
    ensures forall i, j :: 0 <= i < j <= |r| ==> Splice(r, at, x)[i].After() <= Splice(r, at, x)[j].vaddr
  {
    hide Phys.RoundUp;
  }

  lemma InsertStarts(r: seq<Range>, at: nat, x: Range, i: nat)
    requires WellPlaced(r) && at <= |r| && i <= |r|
    requires at > 0 ==> r[at - 1].After() <= x.vaddr
    requires at < |r| ==> x.End() <= r[at].vaddr
    requires at == 0 || Segment(r[at - 1].vaddr) != Segment(x.vaddr) ==> x.vaddr == Base(Segment(x.vaddr))
    ensures StartsSegment(Splice(r, at, x), i)
  {
    hide Phys.RoundUp, InSegment, WellPlaced, Splice;
    InsertAt(r, at, x, i);
    if i > 0 { InsertAt(r, at, x, i - 1); }
    StartsOf(r, if i <= at then i else i - 1);
    if at > 0 { After(r[at - 1]); }
  }

  lemma StartsOf(r: seq<Range>, i: nat)
    requires WellPlaced(r)
    ensures i < |r| ==> StartsSegment(r, i)
  {
    hide Phys.RoundUp, InSegment;
  }

  lemma InsertAt(r: seq<Range>, at: nat, x: Range, i: nat)
    requires at <= |r| && i <= |r|
    ensures Splice(r, at, x)[i] == if i < at then r[i] else if i == at then x else r[i - 1]
  {
  }

  /** Inserting behind range i, in the same segment. */
  lemma PlaceBehind(r: seq<Range>, i: nat, size: nat)
    requires WellPlaced(r) && i < |r| && size > 0
    requires r[i].After() + size <= Limit(Segment(r[i].vaddr))
    requires i + 1 < |r| ==> r[i].After() + size <= r[i + 1].vaddr
    ensures var x := Range(r[i].After(), size);
      InSegment(x, Segment(r[i].vaddr)) && WellPlaced(Splice(r, i + 1, x)) && x.vaddr != RO_DATA_BASE
  {
    hide Phys.RoundUp;
    After(r[i]);
    InsertWellPlaced(r, i + 1, Range(r[i].After(), size));
  }

  /** Opening a segment that has no range yet. */
  lemma PlaceFirst(r: seq<Range>, at: nat, size: nat, ty: BufferType)
    requires WellPlaced(r) && at <= |r| && 0 < size < SEGMENT_SIZE
    requires at > 0 ==> r[at - 1].vaddr < Base(ty) && Segment(r[at - 1].vaddr) != ty
    requires at < |r| ==> Limit(ty) <= r[at].vaddr
    ensures InSegment(Range(Base(ty), size), ty) && WellPlaced(Splice(r, at, Range(Base(ty), size)))
  {
    hide Phys.RoundUp;
    if at > 0 { After(r[at - 1]); }
    InsertWellPlaced(r, at, Range(Base(ty), size));
  }

  lemma ReadOnlyIsGood(r: seq<Range>, size: nat)
    requires WellPlaced(r) && 0 < size < SEGMENT_SIZE && r != []
    ensures Good(r, size, ReadOnly) <==> Safe(r, size, ReadOnly)
  {
    hide Phys.RoundUp, Splice;
    assert StartsSegment(r, 0);
    if r[0].vaddr == RO_DATA_BASE {
      var i := Scan(r, 0, size, RW_DATA_BASE);
      After(r[i]);
      if r[i].vaddr < RW_DATA_BASE && r[i].After() + size <= RW_DATA_BASE { PlaceBehind(r, i, size); }
    } else if r[0].vaddr == RW_DATA_BASE {
      PlaceFirst(r, 0, size, ReadOnly);
    } else {
      NotBehindHead(r, Range(RO_DATA_BASE, size));
    }
  }

  lemma NotBehindHead(r: seq<Range>, x: Range)
    requires r != [] && x.vaddr < r[0].vaddr
    ensures !WellPlaced(Splice(r, 1, x))
  {
    hide Phys.RoundUp;
    var r' := Splice(r, 1, x);
    After(r[0]);
    assert r'[0] == r[0] && r'[1] == x;
  }

  lemma KernelMemIsGood(r: seq<Range>, size: nat)
    requires WellPlaced(r) && 0 < size < SEGMENT_SIZE && r != []
    ensures Good(r, size, KernelMem)
  {
    hide Phys.RoundUp, Splice, WellPlaced, InSegment, Skip, Scan;
    HeadAtBase(r);
    var s := if r[0].vaddr == RO_DATA_BASE || r[0].vaddr == RW_DATA_BASE then Skip(r, 0, BUF_PARA_BASE) else 0;
    if s == |r| {
      PlaceFirst(r, |r|, size, KernelMem);
    } else {
      ScanKernelMem(r, s, size);
    }
  }

  lemma HeadAtBase(r: seq<Range>)
    requires WellPlaced(r) && r != []
    ensures r[0].vaddr == Base(Segment(r[0].vaddr))
  {
    assert StartsSegment(r, 0);
  }

  lemma PlaceOf(r: seq<Range>, i: nat)
    requires WellPlaced(r) && i < |r|
    ensures var ty := Segment(r[i].vaddr);
      Base(ty) <= r[i].vaddr && r[i].End() <= Limit(ty) && r[i].size > 0 && r[i].vaddr % PAGE_SIZE == 0
  {
    hide StartsSegment, Phys.RoundUp;
  }

  lemma ScanKernelMem(r: seq<Range>, s: nat, size: nat)
    requires WellPlaced(r) && size > 0 && s < |r| && BUF_PARA_BASE <= r[s].vaddr
    ensures var i := Scan(r, s, size, BUF_PARA_END); var x := Range(r[i].After(), size);
      r[i].vaddr != RW_DATA_BASE
      && (i + 1 < |r| || x.End() <= BUF_PARA_END ==> InSegment(x, KernelMem) && WellPlaced(Splice(r, i + 1, x)))
  {
    hide Phys.RoundUp, Splice, StartsSegment, Scan, WellPlaced, InSegment;
    var i := Scan(r, s, size, BUF_PARA_END);
    Ordered(r, s, i);
    After(r[i]);
    PlaceOf(r, i);
    if i + 1 < |r| {
      PlaceOf(r, i + 1);
      Ordered(r, i, i + 1);
    }
    if i + 1 < |r| || r[i].After() + size <= BUF_PARA_END { PlaceBehind(r, i, size); }
  }

  lemma ReadWriteIsGood(r: seq<Range>, size: nat)
    requires WellPlaced(r) && 0 < size < SEGMENT_SIZE && r != []
    ensures Good(r, size, ReadWrite) <==> Safe(r, size, ReadWrite)
  {
    hide Phys.RoundUp, Splice, WellPlaced, InSegment, Skip, Scan, ReadWriteRoom;
    HeadAtBase(r);
    var s := if r[0].vaddr == RO_DATA_BASE then Skip(r, 0, RW_DATA_BASE) else 0;
    if s == |r| {
      PlaceFirst(r, |r|, size, ReadWrite);
    } else {
      ScanReadWrite(r, s, size);
    }
  }

  /** Behind a READ_WRITE range with room, or else behind the first KERNEL_MEM range, which is
      out of the segment; only a list that ends there is reported as full. */
  lemma ScanReadWrite(r: seq<Range>, s: nat, size: nat)
    requires WellPlaced(r) && size > 0 && s < |r| && RW_DATA_BASE <= r[s].vaddr
    requires s == 0 || r[s - 1].vaddr < RW_DATA_BASE
    ensures var i := Scan(r, s, size, BUF_PARA_BASE); var x := Range(r[i].After(), size);
      && x.vaddr != RO_DATA_BASE
      && (i + 1 == |r| && x.End() > BUF_PARA_BASE ==> Safe(r, size, ReadWrite))
      && (i + 1 < |r| || x.End() <= BUF_PARA_BASE ==>
          (InSegment(x, ReadWrite) && WellPlaced(Splice(r, i + 1, x)) <==> Safe(r, size, ReadWrite)))
  {
    hide Phys.RoundUp, Splice, StartsSegment, Safe, WellPlaced, Scan, InSegment;
    var i := Scan(r, s, size, BUF_PARA_BASE);
    Ordered(r, s, i);
    After(r[i]);
    if r[i].vaddr < BUF_PARA_BASE {
      FoundRoom(r, i, size);
    } else {
      NoRoom(r, s, i, size);
    }
  }

  lemma FoundRoom(r: seq<Range>, i: nat, size: nat)
    requires WellPlaced(r) && i < |r| && RW_DATA_BASE <= r[i].vaddr < BUF_PARA_BASE && size > 0
    requires i + 1 < |r| ==> r[i].After() + size <= r[i + 1].vaddr
    ensures Safe(r, size, ReadWrite)
    ensures var x := Range(r[i].After(), size);
      i + 1 < |r| || x.End() <= BUF_PARA_BASE ==> InSegment(x, ReadWrite) && WellPlaced(Splice(r, i + 1, x))
  {
    hide Phys.RoundUp, Splice;
    if i + 1 < |r| {
      assert StartsSegment(r, i + 1);
      assert RoomBehind(r, i, size);
    } else if i > 0 {
      Ordered(r, i - 1, i);
    }
    if i + 1 < |r| || r[i].After() + size <= BUF_PARA_BASE { PlaceBehind(r, i, size); }
  }

  lemma NoRoom(r: seq<Range>, s: nat, i: nat, size: nat)
    requires WellPlaced(r) && s <= i < |r| && size > 0 && BUF_PARA_BASE <= r[i].vaddr
    requires s == 0 || r[s - 1].vaddr < RW_DATA_BASE
    requires forall j :: s <= j < i ==> r[j].vaddr < BUF_PARA_BASE && r[j].After() + size > r[j + 1].vaddr
    ensures Safe(r, size, ReadWrite) <==> i + 1 == |r|
    ensures !InSegment(Range(r[i].After(), size), ReadWrite)
  {
    hide Phys.RoundUp, StartsSegment;
  }

  /** The law of allocMemory on a well-placed list: the outcome is good exactly for the safe calls. */
  lemma PlaceIsGood(r: seq<Range>, size: nat, ty: BufferType)
    requires WellPlaced(r) && 0 < size < SEGMENT_SIZE
    ensures Good(r, size, ty) <==> Safe(r, size, ty)
  {
    hide WellPlaced, InSegment, Phys.RoundUp, Splice;
    if r == [] {
      NothingPlaced();
      PlaceFirst(r, 0, size, ty);
    } else if ty == ReadOnly {
      ReadOnlyIsGood(r, size);
    } else if ty == ReadWrite {
      ReadWriteIsGood(r, size);
    } else {
      KernelMemIsGood(r, size);
    }
  }

  /** The three segments, 512 MiB each from 0x40000000 on. */
  ghost predicate Within(va: nat, size: nat, ty: BufferType)
  {
    match ty
    case ReadOnly => 0x4000_0000 <= va && va + size <= 0x6000_0000
    case ReadWrite => 0x6000_0000 <= va && va + size <= 0x8000_0000
    case KernelMem => 0x8000_0000 <= va && va + size <= 0xA000_0000
  }

  /** Page-aligned room for a buffer somewhere in its segment, clear of every range. */
  ghost predicate Free(r: seq<Range>, size: nat, ty: BufferType, va: nat)
  {
    va % 4096 == 0 && Within(va, size, ty)
    && forall i :: 0 <= i < |r| ==> r[i].After() <= va || va + size <= r[i].vaddr
  }

  /** READ_WRITE buffers are never placed in a list with exactly one KERNEL_MEM range and no
      READ_WRITE one. */
  ghost predicate Blocked(r: seq<Range>, ty: BufferType)
  {
    ty == ReadWrite && r != [] && Segment(r[|r| - 1].vaddr) == KernelMem && NoReadWrite(r)
    && (|r| < 2 || Segment(r[|r| - 2].vaddr) != KernelMem)
  }

  ghost predicate NoReadWrite(r: seq<Range>)
  {
    forall i :: 0 <= i < |r| ==> Segment(r[i].vaddr) != ReadWrite
  }

  /** The last range that starts at or below va. */
  lemma {:induction false} LastBelow(r: seq<Range>, s: nat, va: nat) returns (x: nat)
    requires s < |r| && r[s].vaddr <= va
    ensures s <= x < |r| && r[x].vaddr <= va && (x + 1 < |r| ==> va < r[x + 1].vaddr)
    decreases |r| - s
  {
    if s + 1 < |r| && r[s + 1].vaddr <= va {
      x := LastBelow(r, s + 1, va);
    } else {
      x := s;
    }
  }

  /** A scan that ends at i has found no room before: a free address would lie behind i. */
  lemma FreeIsBehind(r: seq<Range>, s: nat, i: nat, size: nat, ty: BufferType, va: nat)
    requires WellPlaced(r) && s <= i < |r| && Free(r, size, ty, va) && size > 0 && r[s].vaddr == Base(ty)
    requires forall x :: s <= x < i ==> r[x].After() + size > r[x + 1].vaddr
    ensures r[i].After() <= va
    ensures i + 1 < |r| && Base(ty) <= r[i].vaddr < Limit(ty) ==>
      r[i].After() + size <= r[i + 1].vaddr || r[i + 1].vaddr <= va
  {
    hide Phys.RoundUp, StartsSegment;
    var x := LastBelow(r, s, va);
    After(r[x]);
    assert i <= x;
    if i < x { assert r[i].After() <= r[x].vaddr; }
  }

  /** A placed buffer was free room. */
  lemma PlacedIsFree(r: seq<Range>, size: nat, ty: BufferType)
    requires WellPlaced(r) && Place(r, size, ty).Placed? && Good(r, size, ty) && size > 0
    ensures Free(r, size, ty, Place(r, size, ty).vaddr)
  {
    hide Phys.RoundUp, StartsSegment, Place;
    var Placed(at, va) := Place(r, size, ty);
    var r' := Splice(r, at, Range(va, size));
    InsertAt(r, at, Range(va, size), at);
    After(Range(va, size));
    forall i | 0 <= i < |r| ensures r[i].After() <= va || va + size <= r[i].vaddr {
      InsertAt(r, at, Range(va, size), if i < at then i else i + 1);
    }
  }

  lemma FullReadOnly(r: seq<Range>, size: nat, va: nat)
    requires WellPlaced(r) && 0 < size < SEGMENT_SIZE && r != [] && PlaceReadOnly(r, size).Failed?
    ensures !Free(r, size, ReadOnly, va)
  {
    hide Phys.RoundUp, WellPlaced, StartsSegment;
    if Free(r, size, ReadOnly, va) {
      var i := Scan(r, 0, size, RW_DATA_BASE);
      FreeIsBehind(r, 0, i, size, ReadOnly, va);
    }
  }

  lemma FullKernelMem(r: seq<Range>, size: nat, va: nat)
    requires WellPlaced(r) && 0 < size < SEGMENT_SIZE && r != [] && PlaceKernelMem(r, size).Failed?
    ensures !Free(r, size, KernelMem, va)
  {
    hide Phys.RoundUp, WellPlaced, Skip, Scan;
    HeadAtBase(r);
    var s := if r[0].vaddr == RO_DATA_BASE || r[0].vaddr == RW_DATA_BASE then Skip(r, 0, BUF_PARA_BASE) else 0;
    StartsOf(r, s);
    if Free(r, size, KernelMem, va) {
      var i := Scan(r, s, size, BUF_PARA_END);
      FreeIsBehind(r, s, i, size, KernelMem, va);
    }
  }

  lemma FullReadWrite(r: seq<Range>, size: nat, va: nat)
    requires WellPlaced(r) && 0 < size < SEGMENT_SIZE && r != []
    requires PlaceReadWrite(r, size).Failed? && !Blocked(r, ReadWrite) && Safe(r, size, ReadWrite)
    ensures !Free(r, size, ReadWrite, va)
  {
    hide Phys.RoundUp, WellPlaced, Skip, Scan;
    HeadAtBase(r);
    var s := if r[0].vaddr == RO_DATA_BASE then Skip(r, 0, RW_DATA_BASE) else 0;
    StartsOf(r, s);
    NotBlocked(r, size, s);
    if Free(r, size, ReadWrite, va) {
      var i := Scan(r, s, size, BUF_PARA_BASE);
      FreeIsBehind(r, s, i, size, ReadWrite, va);
    }
  }

  /** On a safe call that is not blocked, what comes behind the READ_ONLY ranges is a READ_WRITE range. */
  lemma NotBlocked(r: seq<Range>, size: nat, s: nat)
    requires WellPlaced(r) && !Blocked(r, ReadWrite) && Safe(r, size, ReadWrite)
    requires s < |r| && RW_DATA_BASE <= r[s].vaddr && forall x :: 0 <= x < s ==> r[x].vaddr < RW_DATA_BASE
    ensures r[s].vaddr < BUF_PARA_BASE
  {
    hide Phys.RoundUp, StartsSegment;
    if BUF_PARA_BASE <= r[s].vaddr {
      Ordered(r, s, |r| - 1);
      forall i | 0 <= i < |r| ensures Segment(r[i].vaddr) != ReadWrite {
        if s <= i { Ordered(r, s, i); }
      }
      NoReadWriteRoom(r, size);
    }
  }

  /** A safe call throws exactly when its segment has no room left, or when it is blocked. */
  lemma FailsWhenFull(r: seq<Range>, size: nat, ty: BufferType)
    requires WellPlaced(r) && 0 < size < SEGMENT_SIZE && Safe(r, size, ty)
    ensures Place(r, size, ty).Failed? <==> Blocked(r, ty) || forall va: nat :: !Free(r, size, ty, va)
  {
    hide Phys.RoundUp, WellPlaced, Free, Safe, Good, PlaceReadOnly, PlaceReadWrite, PlaceKernelMem, Blocked;
    PlaceIsGood(r, size, ty);
    if Place(r, size, ty).Placed? {
      PlacedIsFree(r, size, ty);
      if Blocked(r, ty) { BlockedFails(r, size, ty); }
    } else if !Blocked(r, ty) {
      forall va: nat ensures !Free(r, size, ty, va) {
        match ty
        case ReadOnly => FullReadOnly(r, size, va);
        case ReadWrite => FullReadWrite(r, size, va);
        case KernelMem => FullKernelMem(r, size, va);
      }
    }
  }

  lemma LowestReadOnly(r: seq<Range>, size: nat, va: nat)
    requires WellPlaced(r) && 0 < size < SEGMENT_SIZE && r != []
    requires PlaceReadOnly(r, size).Placed? && Free(r, size, ReadOnly, va)
    ensures PlaceReadOnly(r, size).vaddr <= va
  {
    hide Phys.RoundUp, WellPlaced, StartsSegment;
    if r[0].vaddr == RO_DATA_BASE {
      var i := Scan(r, 0, size, RW_DATA_BASE);
      FreeIsBehind(r, 0, i, size, ReadOnly, va);
    }
  }

  lemma LowestKernelMem(r: seq<Range>, size: nat, va: nat)
    requires WellPlaced(r) && 0 < size < SEGMENT_SIZE && r != []
    requires PlaceKernelMem(r, size).Placed? && Free(r, size, KernelMem, va)
    ensures PlaceKernelMem(r, size).vaddr <= va
  {
    hide Phys.RoundUp, WellPlaced, Skip, Scan;
    HeadAtBase(r);
    var s := if r[0].vaddr == RO_DATA_BASE || r[0].vaddr == RW_DATA_BASE then Skip(r, 0, BUF_PARA_BASE) else 0;
    StartsOf(r, s);
    if s < |r| {
      var i := Scan(r, s, size, BUF_PARA_END);
      FreeIsBehind(r, s, i, size, KernelMem, va);
    }
  }

  lemma LowestReadWrite(r: seq<Range>, size: nat, va: nat)
    requires WellPlaced(r) && 0 < size < SEGMENT_SIZE && r != [] && Safe(r, size, ReadWrite)
    requires PlaceReadWrite(r, size).Placed? && Free(r, size, ReadWrite, va)
    ensures PlaceReadWrite(r, size).vaddr <= va
  {
    hide Phys.RoundUp, WellPlaced, Skip, Scan, Blocked;
    HeadAtBase(r);
    if Blocked(r, ReadWrite) { BlockedFails(r, size, ReadWrite); }
    var s := if r[0].vaddr == RO_DATA_BASE then Skip(r, 0, RW_DATA_BASE) else 0;
    StartsOf(r, s);
    if s < |r| {
      NotBlocked(r, size, s);
      var i := Scan(r, s, size, BUF_PARA_BASE);
      FreeIsBehind(r, s, i, size, ReadWrite, va);
    }
  }

  /** A safe call that is placed gets the lowest free address of its segment. */
  lemma PlacedIsLowest(r: seq<Range>, size: nat, ty: BufferType)
    requires WellPlaced(r) && 0 < size < SEGMENT_SIZE && Safe(r, size, ty) && Place(r, size, ty).Placed?
    ensures Free(r, size, ty, Place(r, size, ty).vaddr)
    ensures forall va: nat :: Free(r, size, ty, va) ==> Place(r, size, ty).vaddr <= va
  {
    hide Phys.RoundUp, WellPlaced, Safe, Good, PlaceReadOnly, PlaceReadWrite, PlaceKernelMem;
    PlaceIsGood(r, size, ty);
    PlacedIsFree(r, size, ty);
    forall va: nat | Free(r, size, ty, va) ensures Place(r, size, ty).vaddr <= va {
      if r != [] {
        match ty
        case ReadOnly => LowestReadOnly(r, size, va);
        case ReadWrite => LowestReadWrite(r, size, va);
        case KernelMem => LowestKernelMem(r, size, va);
      }
    }
  }

  lemma BlockedFails(r: seq<Range>, size: nat, ty: BufferType)
    requires WellPlaced(r) && size > 0 && Blocked(r, ty)
    ensures Place(r, size, ty).Failed?
  {
    hide Phys.RoundUp, WellPlaced, Skip, ReadWriteRoom;
    HeadAtBase(r);
    var last := |r| - 1;
    forall x | 0 <= x < last ensures r[x].vaddr < RW_DATA_BASE {
      Ordered(r, x, last - 1);
    }
    After(r[last]);
  }

  /** With two KERNEL_MEM ranges and no READ_WRITE one, a READ_WRITE request is never refused: it
      is placed badly. */
  lemma TwoKernelMemNeverRefuse(r: seq<Range>, size: nat)
    requires WellPlaced(r) && 0 < size < SEGMENT_SIZE && NoReadWrite(r)
    requires |r| >= 2 && Segment(r[|r| - 2].vaddr) == KernelMem
    ensures Place(r, size, ReadWrite).Placed? && !Good(r, size, ReadWrite)
  {
    hide Phys.RoundUp, WellPlaced, Place, ReadWriteRoom, NoReadWrite;
    NoReadWriteRoom(r, size);
    PlaceIsGood(r, size, ReadWrite);
  }

  lemma NoReadWriteRoom(r: seq<Range>, size: nat)
    requires NoReadWrite(r)
    ensures !ReadWriteRoom(r, size)
  {
  }

  /** Where the unsafe calls are placed: at the start of the READ_ONLY segment but behind the head,
      and behind the first KERNEL_MEM range. */
  lemma UnsafePlaces(r: seq<Range>, size: nat, ty: BufferType)
    requires WellPlaced(r) && 0 < size < SEGMENT_SIZE && !Safe(r, size, ty)
    ensures ty == ReadOnly ==> Place(r, size, ty) == Placed(1, 0x4000_0000)
    ensures ty == ReadWrite ==> exists i ::
      0 <= i < |r| - 1 && r[i].vaddr == 0x8000_0000 && Place(r, size, ty) == Placed(i + 1, r[i].After())
  {
    hide Phys.RoundUp, WellPlaced, Skip, Scan;
    HeadAtBase(r);
    if ty == ReadWrite {
      var s := if r[0].vaddr == RO_DATA_BASE then Skip(r, 0, RW_DATA_BASE) else 0;
      Ordered(r, |r| - 2, |r| - 1);
      var i := Scan(r, s, size, BUF_PARA_BASE);
      FirstKernelMem(r, s, i, size);
      assert Place(r, size, ty) == Placed(i + 1, r[i].After());
    }
  }

  lemma FirstKernelMem(r: seq<Range>, s: nat, i: nat, size: nat)
    requires WellPlaced(r) && !Safe(r, size, ReadWrite) && s <= i < |r|
    requires (s == 0 || r[s - 1].vaddr < RW_DATA_BASE) && (s > 0 || r[0].vaddr != RO_DATA_BASE)
    requires s < |r| && (RW_DATA_BASE <= r[s].vaddr)
    requires r[i].vaddr < BUF_PARA_BASE && i + 1 < |r| ==> r[i].After() + size <= r[i + 1].vaddr
    requires forall x :: s <= x < i ==> r[x].vaddr < BUF_PARA_BASE
    ensures i < |r| - 1 && r[i].vaddr == 0x8000_0000
  {
    hide Phys.RoundUp;
    Ordered(r, s, i);
    if i < |r| - 1 { Ordered(r, i, |r| - 2); }
    assert !RoomBehind(r, i, size);
    if |r| - 2 < i { Ordered(r, |r| - 2, i - 1); }
    StartsOf(r, i);
  }

  /** The unsafe calls do break the list: a READ_ONLY range behind a KERNEL_MEM head, and a
      READ_WRITE range between two KERNEL_MEM ranges. */
  lemma UnsafeCalls()
    ensures var one := [Range(BUF_PARA_BASE, 64)]; WellPlaced(one) && !Good(one, 64, ReadOnly)
    ensures var two := [Range(BUF_PARA_BASE, 64), Range(BUF_PARA_BASE + PAGE_SIZE, 64)];
      WellPlaced(two) && !Good(two, 64, ReadWrite)
  {
    hide Good, WellPlaced, Phys.RoundUp;
    OneKernelRange();
    TwoKernelRanges();
    PlaceIsGood([Range(BUF_PARA_BASE, 64)], 64, ReadOnly);
    PlaceIsGood([Range(BUF_PARA_BASE, 64), Range(BUF_PARA_BASE + PAGE_SIZE, 64)], 64, ReadWrite);
  }

  lemma OneKernelRange()
    ensures WellPlaced([Range(BUF_PARA_BASE, 64)])
  {
  }

  lemma TwoKernelRanges()
    ensures WellPlaced([Range(BUF_PARA_BASE, 64), Range(BUF_PARA_BASE + PAGE_SIZE, 64)])
  {
    hide Splice;
  }

  lemma NothingPlaced()
    ensures WellPlaced([])
  {
  }

  lemma Ordered(r: seq<Range>, i: nat, j: nat)
    requires WellPlaced(r) && i <= j < |r|
    ensures r[i].vaddr <= r[j].vaddr
    ensures i < j ==> r[i].End() <= r[j].vaddr
  {
    hide Phys.RoundUp, InSegment, StartsSegment;
  }
}
