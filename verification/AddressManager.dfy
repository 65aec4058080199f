/** src/driver.h, namespace addr: the doubly linked list of items that each context has. */
module AddressManager {
  import opened AddressRanges
  import opened Sequences
  import Phys

  class Item {
    const kernelID: nat
    const taskID: nat
    const vaddr: nat
    const size: nat
    var prevCtx: Item?
    var succCtx: Item?

    constructor (kernelID: nat, taskID: nat, vaddr: nat, size: nat)
      ensures this.kernelID == kernelID && this.taskID == taskID && this.vaddr == vaddr && this.size == size
      ensures prevCtx == null && succCtx == null
    {
      this.kernelID, this.taskID, this.vaddr, this.size := kernelID, taskID, vaddr, size;
      prevCtx, succCtx := null, null;
    }
  }

  function At(list: seq<Item>, i: int): Item?
  {
    if 0 <= i < |list| then list[i] else null
  }

  /** The items of a context in order: head and links agree with it both ways. */
  ghost predicate Chained(head: Item?, list: seq<Item>)
    reads list
  {
    && head == At(list, 0)
    && (forall i, j :: 0 <= i < j < |list| ==> list[i] != list[j])
    && forall i :: 0 <= i < |list| ==> list[i].prevCtx == At(list, i - 1) && list[i].succCtx == At(list, i + 1)
  }

  /** The list has one more item, x, of this kernel and task; the other items are the same objects. */
  ghost predicate NewItem(list: seq<Item>, list': seq<Item>, repr: set<Item>, at: nat, x: Item, kernelID: nat,
                          taskID: nat)
  {
    at <= |list| && list' == Splice(list, at, x) && x !in repr && x.kernelID == kernelID && x.taskID == taskID
  }

  ghost function RangeOf(x: Item): Range
  {
    Range(x.vaddr, x.size)
  }

  ghost function Ranges(list: seq<Item>): (r: seq<Range>)
    ensures |r| == |list| && forall i :: 0 <= i < |list| ==> r[i] == RangeOf(list[i])
  {
    seq(|list|, i requires 0 <= i < |list| => RangeOf(list[i]))
  }

  /** The pages rounded up to from an address and a size. */
  method After(x: Item) returns (a: nat)
    ensures a == RangeOf(x).After()
  {
    a := Phys.RoundUp(x.vaddr + x.size);
  }

  /** The loops over items below `bound`; null if there is no other. */
  method SkipBelow(head: Item, bound: nat, ghost list: seq<Item>) returns (last: Item, found: bool, ghost s: nat)
    requires Chained(head, list)
    ensures s == Skip(Ranges(list), 0, bound)
    ensures found <==> Skip(Ranges(list), 0, bound) < |list|
    ensures last == At(list, if found then Skip(Ranges(list), 0, bound) else |list| - 1)
  {
    hide Skip, Chained;
    HeadOf(head, list);
    last, s := head, 0;
    SkipNext(Ranges(list), 0, bound);
    while last.vaddr < bound
      invariant s < |list| && last == list[s]
      invariant Skip(Ranges(list), 0, bound) == Skip(Ranges(list), s, bound)
      decreases |list| - s
    {
      LinksOf(head, list, s);
      SkipNext(Ranges(list), s, bound);
      if last.succCtx == null {
        return last, false, s + 1;
      }
      last, s := last.succCtx, s + 1;
    }
    SkipNext(Ranges(list), s, bound);
    found := true;
  }

  lemma SkipNext(r: seq<Range>, i: nat, bound: nat)
    requires i < |r|
    ensures Skip(r, i, bound) == if r[i].vaddr < bound then Skip(r, i + 1, bound) else i
    ensures Skip(r, |r|, bound) == |r|
  {
  }

  /** The loops that look for room behind an item. */
  method FindRoom(start: Item, size: nat, bound: nat, ghost list: seq<Item>, ghost s: nat)
    returns (cur: Item, vaddr: nat, ghost i: nat)
    requires s < |list| && start == list[s] && Chained(list[0], list)
    ensures i == Scan(Ranges(list), s, size, bound) && cur == list[i]
    ensures vaddr == Ranges(list)[i].After() && cur.vaddr <= vaddr
  {
    hide Phys.RoundUp;
    cur, i := start, s;
    vaddr := After(cur);
    while cur.vaddr < bound && cur.succCtx != null
      invariant s <= i < |list| && cur == list[i] && vaddr == Ranges(list)[i].After() && cur.vaddr <= vaddr
      invariant Scan(Ranges(list), s, size, bound) == Scan(Ranges(list), i, size, bound)
      decreases |list| - i
    {
      if vaddr + size <= cur.succCtx.vaddr {
        break;
      }
      cur, i := cur.succCtx, i + 1;
      vaddr := After(cur);
    }
  }

  /** allocVaddr: the item to insert behind and the address; false where the source throws. */
  method AllocVaddr(head: Item, size: nat, ty: BufferType, ghost list: seq<Item>)
    returns (ok: bool, cur: Item, vaddr: nat, ghost i: nat)
    requires Chained(head, list)
    ensures i < |list| && cur == list[i] && (vaddr == RO_DATA_BASE && cur.vaddr == RW_DATA_BASE ==> i == 0)
    ensures ok <==> Place(Ranges(list), size, ty).Placed?
    ensures ok ==> vaddr == Place(Ranges(list), size, ty).vaddr
    ensures Place(Ranges(list), size, ty) == if ok then Behind(Ranges(list), i, vaddr) else Failed
  {
    hide Chained, PlaceReadOnly, PlaceReadWrite, PlaceKernelMem, Behind;
    HeadOf(head, list);
    match ty {
      case ReadOnly => ok, cur, vaddr, i := AllocReadOnly(head, size, list);
      case ReadWrite => ok, cur, vaddr, i := AllocReadWrite(head, size, list);
      case KernelMem => ok, cur, vaddr, i := AllocKernelMem(head, size, list);
    }
  }

  method AllocReadOnly(head: Item, size: nat, ghost list: seq<Item>) returns (ok: bool, cur: Item, vaddr: nat,
                       ghost i: nat)
    requires Chained(head, list) && list != []
    ensures i < |list| && cur == list[i] && (vaddr == RO_DATA_BASE && cur.vaddr == RW_DATA_BASE ==> i == 0)
    ensures ok <==> PlaceReadOnly(Ranges(list), size).Placed?
    ensures ok ==> vaddr == PlaceReadOnly(Ranges(list), size).vaddr
    ensures PlaceReadOnly(Ranges(list), size) == if ok then Behind(Ranges(list), i, vaddr) else Failed
  {
    hide Phys.RoundUp, Scan, Behind, Chained;
    HeadOf(head, list);
    ok, cur, i := true, head, 0;
    if cur.vaddr == RO_DATA_BASE {
      cur, vaddr, i := FindRoom(cur, size, RW_DATA_BASE, list, 0);
      LinksOf(head, list, i);
      if cur.succCtx == null || cur.succCtx.vaddr >= RW_DATA_BASE {
        ok := vaddr + size <= RW_DATA_BASE;
      }
    } else {
      vaddr := RO_DATA_BASE;
    }
  }

  method AllocReadWrite(head: Item, size: nat, ghost list: seq<Item>) returns (ok: bool, cur: Item, vaddr: nat,
                        ghost i: nat)
    requires Chained(head, list) && list != []
    ensures i < |list| && cur == list[i] && (vaddr == RO_DATA_BASE && cur.vaddr == RW_DATA_BASE ==> i == 0)
    ensures ok <==> PlaceReadWrite(Ranges(list), size).Placed?
    ensures ok ==> vaddr == PlaceReadWrite(Ranges(list), size).vaddr
    ensures PlaceReadWrite(Ranges(list), size) == if ok then Behind(Ranges(list), i, vaddr) else Failed
  {
    hide Phys.RoundUp, Skip, Scan, Behind, Chained;
    HeadOf(head, list);
    cur := head;
    ghost var s := 0;
    if cur.vaddr == RO_DATA_BASE {
      var found;
      cur, found, s := SkipBelow(cur, RW_DATA_BASE, list);
      if !found {
        return true, cur, RW_DATA_BASE, |list| - 1;
      }
    }
    cur, vaddr, i := FindRoom(cur, size, BUF_PARA_BASE, list, s);
    LinksOf(head, list, i);
    ok := !(cur.succCtx == null && vaddr + size > BUF_PARA_BASE);
  }

  method AllocKernelMem(head: Item, size: nat, ghost list: seq<Item>) returns (ok: bool, cur: Item, vaddr: nat,
                        ghost i: nat)
    requires Chained(head, list) && list != []
    ensures i < |list| && cur == list[i] && (vaddr == RO_DATA_BASE && cur.vaddr == RW_DATA_BASE ==> i == 0)
    ensures ok <==> PlaceKernelMem(Ranges(list), size).Placed?
    ensures ok ==> vaddr == PlaceKernelMem(Ranges(list), size).vaddr
    ensures PlaceKernelMem(Ranges(list), size) == if ok then Behind(Ranges(list), i, vaddr) else Failed
  {
    hide Phys.RoundUp, Skip, Scan, Behind, Chained;
    HeadOf(head, list);
    cur := head;
    ghost var s := 0;
    if cur.vaddr == RO_DATA_BASE || cur.vaddr == RW_DATA_BASE {
      var found;
      cur, found, s := SkipBelow(cur, BUF_PARA_BASE, list);
      if !found {
        return true, cur, BUF_PARA_BASE, |list| - 1;
      }
    }
    cur, vaddr, i := FindRoom(cur, size, BUF_PARA_END, list, s);
    LinksOf(head, list, i);
    ok := !(cur.succCtx == null && vaddr + size > BUF_PARA_END);
  }

  lemma HeadOf(head: Item, list: seq<Item>)
    requires Chained(head, list)
    ensures list != [] && head == list[0]
  {
  }

  lemma LinksOf(head: Item, list: seq<Item>, i: nat)
    requires Chained(head, list) && i < |list|
    ensures list[i].succCtx == null <==> i + 1 == |list|
    ensures i + 1 < |list| ==> list[i].succCtx == list[i + 1]
  {
  }

  class Manager {
    var heads: map<nat, Item?>
    ghost var lists: map<nat, seq<Item>>
    ghost var repr: set<Item>

    ghost predicate Valid()
      reads this, repr
    {
      && heads.Keys == lists.Keys && Separate(lists, repr)
      && (forall c :: c in lists ==> Chained(heads[c], lists[c]))
    }

    constructor ()
      ensures Valid() && lists == map[] && fresh(repr)
    {
      heads, lists, repr := map[], map[], {};
    }

    method CreateNewContext(ctx: nat) returns (ok: bool)
      requires Valid()
      modifies this
      ensures Valid() && repr == old(repr) && (ok <==> ctx !in old(lists))
      ensures lists == if ok then old(lists)[ctx := []] else old(lists)
    {
      if ctx in heads {
        return false;
      }
      heads, lists := heads[ctx := null], lists[ctx := []];
      return true;
    }

    /** allocMemory: true with the address, or false where the source throws, nothing changed. */
    method AllocMemory(ctx: nat, kernelID: nat, size: nat, ty: BufferType) returns (ok: bool, vaddr: nat)
      requires Valid()
      modifies this, repr
      ensures Valid() && fresh(repr - old(repr))
      ensures ok <==> Allocatable(old(lists), ctx, size, ty)
      ensures !ok ==> lists == old(lists)
      ensures ok ==> lists.Keys == old(lists).Keys && forall c :: c in lists && c != ctx ==> lists[c] == old(lists)[c]
      ensures ok ==> var r := Ranges(old(lists)[ctx]); var p := Place(r, AlignedSize(size), ty);
        p.at <= |r| && vaddr == p.vaddr && Ranges(lists[ctx]) == Splice(r, p.at, Range(vaddr, AlignedSize(size)))
      ensures ok ==> exists at, x :: NewItem(old(lists)[ctx], lists[ctx], old(repr), at, x, kernelID, ctx)
    {
      hide Separate, Ranges, Chained, PlaceReadOnly, PlaceReadWrite, PlaceKernelMem, AlignedSize, Splice;
      if size == 0 {
        return false, 0;
      }
      var n := AlignedSize(size);
      if ctx !in heads {
        return false, 0;
      }
      if n >= SEGMENT_SIZE {
        return false, 0;
      }
      vaddr := Base(ty);
      if heads[ctx] == null {
        HeadNull(heads[ctx], lists[ctx]);
        FirstItem(ctx, kernelID, vaddr, n);
        return true, vaddr;
      }
      var head := heads[ctx];
      HeadOf(head, lists[ctx]);
      var cur;
      ghost var i;
      ok, cur, vaddr, i := AllocVaddr(head, n, ty, lists[ctx]);
      if ok {
        InsertNewItem(cur, ctx, kernelID, vaddr, n, i);
      }
    }

    /** The first item of a context. */
    method FirstItem(ctx: nat, kernelID: nat, vaddr: nat, size: nat)
      requires Valid() && ctx in lists && lists[ctx] == []
      modifies this
      ensures Valid() && fresh(repr - old(repr)) && lists.Keys == old(lists).Keys
      ensures forall c :: c in lists && c != ctx ==> lists[c] == old(lists)[c]
      ensures Ranges(lists[ctx]) == Splice(Ranges([]), 0, Range(vaddr, size))
      ensures exists at, x :: NewItem(old(lists)[ctx], lists[ctx], old(repr), at, x, kernelID, ctx)
    {
      hide Separate, Ranges, Chained, Splice;
      var tmp := new Item(kernelID, ctx, vaddr, size);
      Inserted(lists, repr, ctx, 0, tmp);
      heads := heads[ctx := tmp];
      OneItem(tmp);
      lists := lists[ctx := Splice([], 0, tmp)];
      repr := repr + {tmp};
      assert NewItem(old(lists)[ctx], lists[ctx], old(repr), 0, tmp, kernelID, ctx);
    }

    /** insertNewItem: relink so that the new item is behind cur, or in front of it. */
    method InsertNewItem(cur: Item, ctx: nat, kernelID: nat, vaddr: nat, size: nat, ghost i: nat)
      requires Valid() && ctx in lists && i < |lists[ctx]| && cur == lists[ctx][i]
      requires vaddr == RO_DATA_BASE && cur.vaddr == RW_DATA_BASE ==> i == 0
      modifies this, repr
      ensures Valid() && fresh(repr - old(repr)) && lists.Keys == old(lists).Keys
      ensures forall c :: c in lists && c != ctx ==> lists[c] == old(lists)[c]
      ensures Ranges(lists[ctx]) ==
        Splice(Ranges(old(lists)[ctx]), Behind(Ranges(old(lists)[ctx]), i, vaddr).at, Range(vaddr, size))
      ensures exists at, x :: NewItem(old(lists)[ctx], lists[ctx], old(repr), at, x, kernelID, ctx)
    {
      hide Separate, Ranges, Chained, Splice;
      Belongs(lists, repr, ctx, i);
      var tmp := new Item(kernelID, ctx, vaddr, size);
      if tmp.vaddr == RO_DATA_BASE && cur.vaddr == RW_DATA_BASE {
        LinkInFront(tmp, cur, ctx);
        assert NewItem(old(lists)[ctx], lists[ctx], old(repr), 0, tmp, kernelID, ctx);
      } else {
        LinkBehind(tmp, cur, ctx, i);
        assert NewItem(old(lists)[ctx], lists[ctx], old(repr), i + 1, tmp, kernelID, ctx);
      }
    }

    method LinkInFront(tmp: Item, cur: Item, ctx: nat)
      requires Valid() && ctx in lists && lists[ctx] != [] && cur == lists[ctx][0]
      requires tmp !in repr && tmp.prevCtx == null
      modifies this, cur, tmp
      ensures Valid() && repr == old(repr) + {tmp} && lists == old(lists)[ctx := Splice(old(lists)[ctx], 0, tmp)]
      ensures Ranges(lists[ctx]) == Splice(Ranges(old(lists)[ctx]), 0, RangeOf(tmp))
    {
      hide Separate, Ranges, Chained, Splice;
      ghost var list := lists[ctx];
      Linked(heads[ctx], list);
      Inserted(lists, repr, ctx, 0, tmp);
      Belongs(lists, repr, ctx, 0);
      NotIn(lists, repr, tmp);
      tmp.succCtx := cur;
      cur.prevCtx := tmp;
      assert forall c :: c in lists && c != ctx ==> Chained(heads[c], lists[c]);
      ChainInsert(tmp, list, 0, tmp);
      heads := heads[ctx := tmp];
      lists := lists[ctx := Splice(list, 0, tmp)];
      repr := repr + {tmp};
    }

    method LinkBehind(tmp: Item, cur: Item, ctx: nat, ghost i: nat)
      requires Valid() && ctx in lists && i < |lists[ctx]| && cur == lists[ctx][i]
      requires tmp !in repr
      modifies this, repr, tmp
      ensures Valid() && repr == old(repr) + {tmp}
      ensures lists == old(lists)[ctx := Splice(old(lists)[ctx], i + 1, tmp)]
      ensures Ranges(lists[ctx]) == Splice(Ranges(old(lists)[ctx]), i + 1, RangeOf(tmp))
    {
      hide Separate, Ranges, Chained, Splice, Relinked, At;
      ghost var list := lists[ctx];
      Linked(heads[ctx], list);
      Inserted(lists, repr, ctx, i + 1, tmp);
      OnlyList(lists, repr, ctx);
      NotIn(lists, repr, tmp);
      Relink(tmp, cur, heads[ctx], list, i);
      forall c | c in lists && c != ctx ensures Chained(heads[c], lists[c]) {
        assert old(Chained(heads[c], lists[c]));
      }
      ChainInsert(heads[ctx], list, i + 1, tmp);
      lists := lists[ctx := Splice(list, i + 1, tmp)];
      repr := repr + {tmp};
    }
  }

  /** insertNewItem's assignments for an item that goes behind cur. */
  method Relink(tmp: Item, cur: Item, ghost head: Item?, ghost list: seq<Item>, ghost i: nat)
    requires Chained(head, list) && i < |list| && cur == list[i] && tmp !in list
    modifies tmp, list
    ensures Relinked(list, i + 1, tmp)
  {
    tmp.succCtx := cur.succCtx;
    tmp.prevCtx := cur;
    if cur.succCtx != null {
      cur.succCtx.prevCtx := tmp;
    }
    cur.succCtx := tmp;
  }

  lemma OnlyList(lists: map<nat, seq<Item>>, repr: set<Item>, ctx: nat)
    requires Separate(lists, repr) && ctx in lists
    ensures forall x :: x in lists[ctx] ==> x in repr
    ensures forall c, i, j :: c in lists && c != ctx && 0 <= i < |lists[c]| && 0 <= j < |lists[ctx]| ==>
      lists[c][i] != lists[ctx][j]
  {
  }

  /** The calls of allocMemory that do not throw. */
  ghost predicate Allocatable(lists: map<nat, seq<Item>>, ctx: nat, size: nat, ty: BufferType)
  {
    && size > 0 && ctx in lists && AlignedSize(size) < SEGMENT_SIZE
    && !Place(Ranges(lists[ctx]), AlignedSize(size), ty).Failed?
  }

  lemma HeadNull(head: Item?, list: seq<Item>)
    requires Chained(head, list) && head == null
    ensures list == [] && Ranges(list) == []
  {
  }

  lemma OneItem(x: Item)
    requires x.prevCtx == null && x.succCtx == null
    ensures Chained(x, Splice([], 0, x))
  {
  }

  /** No item is in two lists, and repr has them all. */
  ghost predicate Separate(lists: map<nat, seq<Item>>, repr: set<Item>)
  {
    && (forall c, i :: c in lists && 0 <= i < |lists[c]| ==> lists[c][i] in repr)
    && (forall c, d, i, j :: c in lists && d in lists && c != d && 0 <= i < |lists[c]| && 0 <= j < |lists[d]| ==>
          lists[c][i] != lists[d][j])
  }

  lemma Belongs(lists: map<nat, seq<Item>>, repr: set<Item>, ctx: nat, i: nat)
    requires Separate(lists, repr) && ctx in lists && i < |lists[ctx]|
    ensures lists[ctx][i] in repr && forall c :: c in lists && c != ctx ==> lists[ctx][i] !in lists[c]
  {
  }

  lemma NotIn(lists: map<nat, seq<Item>>, repr: set<Item>, x: Item)
    requires Separate(lists, repr) && x !in repr
    ensures forall c, i :: c in lists && 0 <= i < |lists[c]| ==> lists[c][i] != x
  {
  }

  /** The links after putting x at position `at` of a list. */
  ghost predicate Relinked(list: seq<Item>, at: nat, x: Item)
    requires at <= |list|
    reads list, x
  {
    && x.prevCtx == At(list, at - 1) && x.succCtx == At(list, at)
    && forall j :: 0 <= j < |list| ==>
         list[j].prevCtx == (if j == at then x else At(list, j - 1))
         && list[j].succCtx == (if j == at - 1 then x else At(list, j + 1))
  }

  lemma ChainInsert(head: Item?, list: seq<Item>, at: nat, x: Item)
    requires at <= |list| && x !in list && forall i, j :: 0 <= i < j < |list| ==> list[i] != list[j]
    requires Relinked(list, at, x) && head == (if at == 0 then x else At(list, 0))
    ensures Chained(head, Splice(list, at, x))
  {
    hide Splice, Relinked, At;
    DistinctInsert(list, at, x);
    var list' := Splice(list, at, x);
    ItemAt(list, at, x, 0);
    forall j | 0 <= j < |list'| ensures list'[j].prevCtx == At(list', j - 1) && list'[j].succCtx == At(list', j + 1) {
      ItemAt(list, at, x, j - 1);
      ItemAt(list, at, x, j + 1);
      LinksAt(list, at, x, j);
    }
  }

  lemma ItemAt(list: seq<Item>, at: nat, x: Item, j: int)
    requires at <= |list|
    ensures |Splice(list, at, x)| == |list| + 1
    ensures At(Splice(list, at, x), j) == if j < at then At(list, j) else if j == at then x else At(list, j - 1)
  {
  }

  lemma LinksAt(list: seq<Item>, at: nat, x: Item, j: nat)
    requires at <= |list| && Relinked(list, at, x) && j <= |list|
    ensures |Splice(list, at, x)| == |list| + 1
    ensures var y := Splice(list, at, x)[j];
      && y.prevCtx == (if j <= at then At(list, j - 1) else if j == at + 1 then x else At(list, j - 2))
      && y.succCtx == (if j + 1 < at then At(list, j + 1) else if j + 1 == at then x else At(list, j))
  {
    hide At;
  }

  lemma DistinctInsert(list: seq<Item>, at: nat, x: Item)
    requires at <= |list| && x !in list && forall i, j :: 0 <= i < j < |list| ==> list[i] != list[j]
    ensures var list' := Splice(list, at, x); forall i, j :: 0 <= i < j < |list'| ==> list'[i] != list'[j]
  {
  }

  lemma Linked(head: Item?, list: seq<Item>)
    requires Chained(head, list)
    ensures head == At(list, 0)
    ensures forall i, j :: 0 <= i < j < |list| ==> list[i] != list[j]
    ensures forall i :: 0 <= i < |list| ==> list[i].prevCtx == At(list, i - 1) && list[i].succCtx == At(list, i + 1)
  {
  }

  lemma Inserted(lists: map<nat, seq<Item>>, repr: set<Item>, ctx: nat, at: nat, x: Item)
    requires Separate(lists, repr) && ctx in lists && at <= |lists[ctx]| && x !in repr
    ensures Separate(lists[ctx := Splice(lists[ctx], at, x)], repr + {x})
    ensures Ranges(Splice(lists[ctx], at, x)) == Splice(Ranges(lists[ctx]), at, RangeOf(x))
  {
  }
}
