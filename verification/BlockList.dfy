/** src/device/page.h: the list of blocks, its roving insertion cursor, and their bytes. */
module BlockList {
  import opened Words
  import opened Options
  import opened Sequences
  import opened Sv39
  import Phys

  /** A block and its page buffer, which no other block shares; the reserved blocks have none. */
  datatype Block = Reserved(addr: nat, size: nat) | Backed(addr: nat, size: nat, pages: seq<byte>)
  {
    function End(): nat { addr + size }
    predicate Before(other: Block) { End() <= other.addr }
    predicate Holds(a: nat, n: nat) { addr <= a && a + n <= End() }
  }

  /** m_current_block_. Erasing the node it points at leaves it dangling. */
  datatype Cursor = At(index: nat) | Dangling

  /** The address of the block under the cursor. */
  ghost function UnderCursor(blocks: seq<Block>, c: Cursor): Option<nat>
  {
    if c.At? && c.index < |blocks| then Some(blocks[c.index].addr) else None
  }

  /** A reserved block or a backed one starts at a. */
  ghost predicate Listed(ph: Phys.Phys, a: nat)
  {
    a == 0 || a == ph.range || a in ph.ext
  }

  /** From ph to ph' blocks have only gone, and the cursor is where it was if its block is still
      there, and dangles otherwise. */
  ghost predicate CursorStays(ph: Phys.Phys, u: Option<nat>, ph': Phys.Phys, u': Option<nat>)
  {
    && ph'.range == ph.range && ph'.ext.Keys <= ph.ext.Keys
    && u' == if u.Some? && Listed(ph', u.value) then u else None
  }

  lemma CursorStaysTrans(ph: Phys.Phys, u: Option<nat>, ph1: Phys.Phys, u1: Option<nat>, ph2: Phys.Phys,
                         u2: Option<nat>)
    requires CursorStays(ph, u, ph1, u1) && CursorStays(ph1, u1, ph2, u2)
    ensures CursorStays(ph, u, ph2, u2)
  {
  }

  ghost predicate Sorted(blocks: seq<Block>)
  {
    forall i, j :: 0 <= i < j < |blocks| ==> blocks[i].Before(blocks[j])
  }

  /** Block i is neither of the two reserved ones. */
  ghost predicate Inner(blocks: seq<Block>, i: int)
  {
    0 < i < |blocks| - 1
  }

  ghost predicate Starts(blocks: seq<Block>, i: int, b: nat)
  {
    Inner(blocks, i) && blocks[i].addr == b
  }

  /** The range [addr, addr + size) overlaps no block. */
  ghost predicate Fits(blocks: seq<Block>, addr: nat, size: nat)
  {
    forall i :: 0 <= i < |blocks| ==> blocks[i].End() <= addr || addr + size <= blocks[i].addr
  }

  /** The two reserved blocks in place, the list sorted, and every other block backed by whole pages. */
  ghost predicate Shape(blocks: seq<Block>, maxRange: nat)
  {
    && |blocks| >= 2
    && blocks[0] == Reserved(0, Phys.LOW_END)
    && blocks[|blocks| - 1] == Reserved(maxRange, PAGE_SIZE)
    && Sorted(blocks)
    && forall i :: Inner(blocks, i) ==>
      blocks[i].Backed? && blocks[i].size > 0 && |blocks[i].pages| == Phys.RoundUp(blocks[i].size)
  }

  /** The backed extents are those of the inner blocks. */
  ghost predicate Extents(blocks: seq<Block>, ext: map<nat, nat>)
  {
    && (forall i :: Inner(blocks, i) ==> blocks[i].addr in ext && ext[blocks[i].addr] == blocks[i].size)
    && (forall b :: b in ext ==> exists i :: Starts(blocks, i, b))
  }

  /** The bytes of every backed block are those of its buffer. */
  ghost predicate Copies(data: map<nat, byte>, b: Block)
  {
    && b.Backed? && b.size <= |b.pages|
    && forall x :: b.addr <= x < b.End() ==> x in data && data[x] == b.pages[x - b.addr]
  }

  /** The list is a representation of the memory ph. */
  ghost predicate Represents(blocks: seq<Block>, ph: Phys.Phys): (r: bool)
    ensures r ==> Phys.PhysOk(ph)
  {
    && Shape(blocks, ph.range) && Phys.PhysOk(ph) && Extents(blocks, ph.ext)
    && forall i :: Inner(blocks, i) ==> Copies(ph.data, blocks[i])
  }

  class PhysicalMemory {
    const maxRange: nat
    var blocks: seq<Block>
    var cursor: Cursor
    ghost var state: Phys.Phys

    ghost predicate Valid()
      reads this
    {
      Represents(blocks, state) && state.range == maxRange && (cursor.At? ==> cursor.index < |blocks|)
    }

    ghost function Under(): Option<nat>
      reads this
    {
      UnderCursor(blocks, cursor)
    }

    constructor (range: nat)
      ensures cursor == At(0)
      ensures maxRange == Phys.RoundUp(if range <= 0x100_0000_0000_0000 then range else 0x100_0000_0000_0000)
      ensures Valid() <==> Phys.LOW_END <= maxRange
      ensures Valid() ==> Phys.Paged(state) && state == Phys.Phys(maxRange, map[], map[])
    {
      var capped := if range <= MAX_PHY_RANGE then range else MAX_PHY_RANGE;
      maxRange := Phys.RoundUp(capped);
      blocks := [Reserved(0, Phys.LOW_END), Reserved(Phys.RoundUp(capped), PAGE_SIZE)];
      cursor := At(0);
      state := Phys.Phys(Phys.RoundUp(capped), map[], map[]);
    }

    /** The bytes come from the first block that holds the range; nothing is read from a
        block without pages. */
    method ReadData(addr: nat, length: nat) returns (ok: bool, data: seq<byte>)
      requires Valid()
      ensures length > 0 ==> (ok <==> Phys.Readable(state, addr, length))
      ensures ok ==> |data| == length
      ensures ok && length > 0 ==> data == Phys.Bytes(state, addr, length)
    {
      hide Phys.PhysOk, Phys.Readable, Shape, Extents, Copies;
      var i := 0;
      while i < |blocks|
        invariant 0 <= i <= |blocks|
        invariant forall j :: 0 <= j < i ==> !blocks[j].Holds(addr, length)
      {
        var blk := blocks[i];
        if addr >= blk.addr && addr + length <= blk.addr + blk.size {
          HolderIsReadable(blocks, state, i, addr, length);
          if blk.Reserved? {
            return false, [];
          }
          var base := addr - blk.addr;
          return true, blk.pages[base..base + length];
        }
        i := i + 1;
      }
      NoHolder(blocks, state, addr, length);
      return false, [];
    }

    /** First fit over the gaps of the list. */
    method Usable(size: nat) returns (r: nat)
      requires Valid() && size > 0
      ensures r != 0 ==> Phys.Gap(state, r, Phys.RoundUp(size)) && r + Phys.RoundUp(size) <= maxRange
      ensures Phys.Paged(state) ==> r == Phys.Usable(state, Phys.RoundUp(size))
    {
      hide Phys.PhysOk, Phys.Paged, Phys.Usable, Extents, Copies, Sorted, Phys.Gap;
      var n := Phys.RoundUp(size);
      var u := 0;
      var i := 0;
      NoGapBelowLow(blocks, state, n);
      while i + 1 < |blocks|
        invariant 0 <= i < |blocks| && u <= blocks[i].End()
        invariant forall p: nat :: Phys.Gap(state, p, n) ==> blocks[i].End() <= p
      {
        u := if u <= blocks[i].End() then blocks[i].End() else u;
        NextGap(blocks, state, i, n);
        if blocks[i + 1].addr > u + n - 1 {
          if u + n <= maxRange {
            LowestGap(blocks, state, i, n);
            return u;
          } else {
            break;
          }
        }
        i := i + 1;
      }
      NoGap(blocks, state, i, n);
      return 0;
    }

    /** The size of the block that holds addr, 0 if none does. */
    method Length(addr: nat) returns (length: nat)
      requires Valid()
      ensures forall i :: 0 <= i < |blocks| && blocks[i].Holds(addr, 1) ==> length == blocks[i].size
      ensures (forall i :: 0 <= i < |blocks| ==> !blocks[i].Holds(addr, 1)) ==> length == 0
    {
      var i := 0;
      while i < |blocks|
        invariant 0 <= i <= |blocks|
        invariant forall j :: 0 <= j < i ==> !blocks[j].Holds(addr, 1)
      {
        if blocks[i].addr <= addr && blocks[i].addr + blocks[i].size > addr {
          forall j | i < j < |blocks| ensures !blocks[j].Holds(addr, 1) {
            assert blocks[i].Before(blocks[j]);
          }
          return blocks[i].size;
        }
        i := i + 1;
      }
      return 0;
    }

    /** read_value<uint64_t>. */
    method ReadValue(addr: nat) returns (w: nat)
      requires Valid()
      ensures w == Phys.Word(state, addr)
    {
      var ok, data := ReadData(addr, 8);
      if ok {
        w := Decode(data);
      } else {
        w := 0;
      }
    }

    /** Only the first block that holds the range is written. */
    method WriteData(addr: nat, data: seq<byte>) returns (ok: bool)
      requires Valid()
      modifies this
      ensures Valid() && |blocks| == |old(blocks)| && cursor == old(cursor) && Under() == old(Under())
      ensures state == Phys.Poke(old(state), addr, data)
      ensures data != [] ==> (ok <==> Phys.Readable(old(state), addr, |data|))
    {
      hide Phys.PhysOk, Phys.Readable, Shape, Extents, Copies, Phys.Poke, Represents;
      var i := 0;
      while i < |blocks|
        invariant 0 <= i <= |blocks| && Valid() && unchanged(this)
        invariant forall j :: 0 <= j < i ==> !blocks[j].Holds(addr, |data|)
      {
        var blk := blocks[i];
        if addr >= blk.addr && addr + |data| <= blk.addr + blk.size {
          HolderIsReadable(blocks, state, i, addr, |data|);
          if blk.Reserved? {
            PokeNothing(state, addr, data);
            return false;
          }
          WriteRepresents(blocks, state, i, addr, data);
          blocks := blocks[i := blk.(pages := Overwrite(blk.pages, addr - blk.addr, data))];
          state := Phys.Poke(state, addr, data);
          return true;
        }
        i := i + 1;
      }
      NoHolder(blocks, state, addr, |data|);
      PokeNothing(state, addr, data);
      return false;
    }

    /** write_value<uint64_t>. */
    method WriteValue(addr: nat, w: nat) returns (ok: bool)
      requires Valid() && w < WORD_RANGE
      modifies this
      ensures Valid() && |blocks| == |old(blocks)| && cursor == old(cursor) && Under() == old(Under())
      ensures state == Phys.PokeWord(old(state), addr, w)
    {
      ok := WriteData(addr, Encode(w, 8));
    }

    /** insert: from the cursor, backwards or forwards to the first block on the other side
        of the new one. Only the block under the cursor is checked for overlap. */
    method Insert(addr: nat, size: nat) returns (ok: bool)
      requires Valid() && cursor.At? && size > 0 && addr + size <= maxRange
      modifies this
      ensures cursor.At? && cursor.index < |blocks|
      ensures !ok ==> blocks == old(blocks) && state == old(state)
      ensures Phys.Gap(old(state), addr, size) ==>
        Valid() && state == Phys.Insert(old(state), addr, size)
      ensures ok && Sorted(blocks) <==> Phys.Gap(old(state), addr, size)
      ensures ok && Sorted(blocks) ==> blocks == InsertFromHead(old(blocks), NewBlock(addr, size))
      ensures Inserted(old(blocks), old(cursor), NewBlock(addr, size), ok, blocks, cursor)
    {
      hide Phys.PhysOk, Phys.Gap, Phys.Insert, Shape, Extents, Copies, Sorted, Fits, NewBlock, InsertFromHead,
           Splice, Represents, Inserted, Back, Ahead, Block.Before, Block.End;
      var blk := NewBlock(addr, size);
      ghost var from := cursor.index;
      ghost var fits := Fits(blocks, addr, size);
      Room(blocks, state, addr, size);
      InsertedWhen(blocks, from, blk);
      if blk.Before(blocks[cursor.index]) {
        while cursor.index != 0
          invariant Valid() && cursor.At? && blocks == old(blocks) && state == old(state)
          invariant Back(blocks, cursor.index, blk) == Back(blocks, from, blk)
          invariant fits ==> blk.Before(blocks[cursor.index])
        {
          ScanStep(blocks, cursor.index, blk);
          cursor := At(cursor.index - 1);
          if blocks[cursor.index].Before(blk) {
            Spliced(blocks, state, cursor.index + 1, addr, size);
            blocks := Splice(blocks, cursor.index + 1, blk);
            if fits { state := Phys.Insert(state, addr, size); }
            return true;
          }
          FitsAt(blocks, cursor.index, addr, size);
        }
      } else if blocks[cursor.index].Before(blk) {
        while true
          invariant Valid() && cursor.At? && blocks == old(blocks) && state == old(state)
          invariant cursor.index + 1 < |blocks| && Ahead(blocks, cursor.index, blk) == Ahead(blocks, from, blk)
          invariant fits ==> blocks[cursor.index].Before(blk)
          decreases |blocks| - cursor.index
        {
          ScanStep(blocks, cursor.index, blk);
          cursor := At(cursor.index + 1);
          if blk.Before(blocks[cursor.index]) {
            Spliced(blocks, state, cursor.index, addr, size);
            blocks := Splice(blocks, cursor.index, blk);
            if fits { state := Phys.Insert(state, addr, size); }
            cursor := At(cursor.index + 1);
            return true;
          }
          FitsAt(blocks, cursor.index, addr, size);
        }
      } else {
        FitsAt(blocks, cursor.index, addr, size);
      }
      return false;
    }

    /** remove: the block that holds addr. Erasing the block under the cursor leaves the cursor dangling. */
    method Remove(addr: nat) returns (ok: bool)
      requires Valid()
      modifies this
      ensures ok ==> exists i :: Erased(old(blocks), old(cursor), addr, i, blocks, cursor)
      ensures !ok ==> blocks == old(blocks) && forall i :: 0 <= i < |blocks| ==> !blocks[i].Holds(addr, 1)
      ensures Phys.LOW_END <= addr < maxRange ==>
        Valid() && CursorStays(old(state), old(Under()), state, Under())
      ensures !ok ==> state == old(state) && cursor == old(cursor)
      ensures Phys.LOW_END <= addr < maxRange ==> (ok <==> exists b: nat :: Phys.InBlock(old(state), b, addr, 1))
      ensures Phys.LOW_END <= addr < maxRange ==>
        forall b: nat :: Phys.InBlock(old(state), b, addr, 1) ==> state == Phys.Erase(old(state), b)
    {
      hide Phys.PhysOk, Phys.Erase, Shape, Extents, Copies, Sorted, Without, Represents, CursorStays, UnderCursor;
      var i := 0;
      while i < |blocks|
        invariant 0 <= i <= |blocks| && unchanged(this)
        invariant forall j :: 0 <= j < i ==> !blocks[j].Holds(addr, 1)
      {
        if blocks[i].addr <= addr && blocks[i].addr + blocks[i].size > addr {
          if Phys.LOW_END <= addr < maxRange {
            Removed(blocks, state, i, addr);
            CursorRemoved(blocks, state, i, cursor);
            state := Phys.Erase(state, blocks[i].addr);
          }
          WithoutLength(blocks, i);
          blocks := Without(blocks, i);
          cursor := CursorWithout(cursor, i);
          assert Erased(old(blocks), old(cursor), addr, i, blocks, cursor);
          return true;
        }
        if blocks[i].addr > addr {
          ShapeOf(blocks, state);
          NoneAfter(blocks, maxRange, i, addr);
          break;
        }
        i := i + 1;
      }
      NotHeld(blocks, state, addr);
      CursorListed(blocks, state, cursor);
      return false;
    }
  }

  function Overwrite(buffer: seq<byte>, base: nat, src: seq<byte>): (r: seq<byte>)
    requires base + |src| <= |buffer|
    ensures |r| == |buffer|
  {
    buffer[..base] + src + buffer[base + |src|..]
  }

  lemma PokeNothing(ph: Phys.Phys, a: nat, s: seq<byte>)
    requires s == [] || !Phys.Readable(ph, a, |s|)
    ensures Phys.Poke(ph, a, s) == ph
  {
    assert Phys.Poke(ph, a, s).data == ph.data;
  }

  /** A range that some block of the list holds is readable exactly if the block is backed. */
  lemma HolderIsReadable(blocks: seq<Block>, ph: Phys.Phys, i: nat, a: nat, n: nat)
    requires Represents(blocks, ph) && i < |blocks| && blocks[i].Holds(a, n)
    ensures n > 0 ==> (Phys.Readable(ph, a, n) <==> blocks[i].Backed?)
    ensures blocks[i].Backed? ==> Inner(blocks, i) && Phys.Readable(ph, a, n) && |blocks[i].pages| >= blocks[i].size
    ensures blocks[i].Backed? ==> blocks[i].pages[a - blocks[i].addr..][..n] == Phys.Bytes(ph, a, n)
  {
    if blocks[i].Backed? {
      assert Inner(blocks, i) && Copies(ph.data, blocks[i]);
      assert Phys.InBlock(ph, blocks[i].addr, a, n);
    } else if n > 0 {
      forall b: nat ensures !Phys.InBlock(ph, b, a, n) {
        if b in ph.ext {
          var j :| Starts(blocks, j, b);
          if j < i { assert blocks[j].Before(blocks[i]); } else { assert blocks[i].Before(blocks[j]); }
        }
      }
    }
  }

  lemma NoHolder(blocks: seq<Block>, ph: Phys.Phys, a: nat, n: nat)
    requires Represents(blocks, ph) && forall i :: 0 <= i < |blocks| ==> !blocks[i].Holds(a, n)
    ensures !Phys.Readable(ph, a, n)
  {
  }

  lemma WriteRepresents(blocks: seq<Block>, ph: Phys.Phys, i: nat, a: nat, s: seq<byte>)
    requires Represents(blocks, ph) && i < |blocks| && blocks[i].Backed? && blocks[i].Holds(a, |s|)
    ensures a - blocks[i].addr + |s| <= |blocks[i].pages|
    ensures var blk := blocks[i].(pages := Overwrite(blocks[i].pages, a - blocks[i].addr, s));
      Represents(blocks[i := blk], Phys.Poke(ph, a, s)) && Phys.Poke(ph, a, s).range == ph.range
  {
    hide Phys.PhysOk, Phys.Readable, Phys.Poke, Shape, Extents, Copies, Overwrite;
    HolderIsReadable(blocks, ph, i, a, |s|);
    Phys.PokeValid(ph, a, s);
    var blk := blocks[i].(pages := Overwrite(blocks[i].pages, a - blocks[i].addr, s));
    SameLayout(blocks, ph, i, blk);
    var blocks' := blocks[i := blk];
    forall j | Inner(blocks', j) ensures Copies(Phys.Poke(ph, a, s).data, blocks'[j]) {
      assert Copies(ph.data, blocks[j]);
      if j == i {
        CopiesWritten(ph, a, s, blocks[i]);
      } else {
        Apart(blocks, ph.range, i, j);
        CopiesElsewhere(ph, a, s, blocks[j]);
      }
    }
  }

  lemma NoGapBelowLow(blocks: seq<Block>, ph: Phys.Phys, n: nat)
    requires Represents(blocks, ph)
    ensures |blocks| > 0 && forall p: nat :: Phys.Gap(ph, p, n) ==> blocks[0].End() <= p
  {
  }

  /** What the room after block i says about gaps from there on. */
  lemma NextGap(blocks: seq<Block>, ph: Phys.Phys, i: nat, n: nat)
    requires Represents(blocks, ph) && i + 1 < |blocks| && n > 0
    requires forall p: nat :: Phys.Gap(ph, p, n) ==> blocks[i].End() <= p
    ensures blocks[i + 1].addr <= ph.range && Phys.LOW_END <= blocks[i].End() <= blocks[i + 1].End()
    ensures blocks[i].End() + n <= blocks[i + 1].addr ==> Phys.Gap(ph, blocks[i].End(), n)
    ensures blocks[i + 1].addr < blocks[i].End() + n ==>
      forall p: nat :: Phys.Gap(ph, p, n) ==> blocks[i + 1].End() <= p
  {
    hide Phys.PhysOk, Copies;
    assert blocks[i].Before(blocks[i + 1]);
    if i > 0 { assert blocks[0].Before(blocks[i]); }
    if i + 2 < |blocks| { assert blocks[i + 1].Before(blocks[|blocks| - 1]); }
    if blocks[i].End() + n <= blocks[i + 1].addr {
      forall b | b in ph.ext ensures blocks[i].End() + n <= b || b + ph.ext[b] <= blocks[i].End() {
        var j :| Starts(blocks, j, b);
        if j < i { assert blocks[j].Before(blocks[i]); }
        if i + 1 < j { assert blocks[i + 1].Before(blocks[j]); }
      }
    } else {
      forall p: nat | Phys.Gap(ph, p, n) ensures blocks[i + 1].End() <= p {
        if Inner(blocks, i + 1) { assert blocks[i + 1].addr in ph.ext; }
      }
    }
  }

  lemma LowestGap(blocks: seq<Block>, ph: Phys.Phys, i: nat, n: nat)
    requires Represents(blocks, ph) && i + 1 < |blocks| && n > 0 && Phys.LOW_END <= blocks[i].End()
    requires Phys.Gap(ph, blocks[i].End(), n) && forall p: nat :: Phys.Gap(ph, p, n) ==> blocks[i].End() <= p
    ensures Phys.Paged(ph) ==> blocks[i].End() == Phys.Usable(ph, n)
  {
    hide Phys.Gap, Phys.Usable, Phys.PhysOk, Phys.Paged, Represents;
    Phys.UsableIsLowestGap(ph, n, blocks[i].End());
    if Phys.Paged(ph) { EndAligned(blocks, ph, i); }
  }

  lemma EndAligned(blocks: seq<Block>, ph: Phys.Phys, i: nat)
    requires Represents(blocks, ph) && i + 1 < |blocks| && Phys.Paged(ph)
    ensures blocks[i].End() % PAGE_SIZE == 0
  {
    hide Phys.PhysOk, Copies, Sorted;
  }

  lemma NoGap(blocks: seq<Block>, ph: Phys.Phys, i: nat, n: nat)
    requires Represents(blocks, ph) && i + 1 == |blocks| && n > 0
    requires forall p: nat :: Phys.Gap(ph, p, n) ==> blocks[i].End() <= p
    ensures Phys.Usable(ph, n) == 0
  {
    hide Phys.Usable, Phys.PhysOk;
  }

  lemma Apart(blocks: seq<Block>, range: nat, i: nat, j: nat)
    requires Shape(blocks, range) && i < |blocks| && j < |blocks| && i != j
    ensures blocks[i].Before(blocks[j]) || blocks[j].Before(blocks[i])
  {
    assert i < j || j < i;
  }

  lemma SameLayout(blocks: seq<Block>, ph: Phys.Phys, i: nat, blk: Block)
    requires Shape(blocks, ph.range) && Extents(blocks, ph.ext) && Inner(blocks, i)
    requires blk.Backed? && blk.addr == blocks[i].addr && blk.size == blocks[i].size && |blk.pages| == |blocks[i].pages|
    ensures Shape(blocks[i := blk], ph.range) && Extents(blocks[i := blk], ph.ext)
  {
    hide Extents;
    var blocks' := blocks[i := blk];
    assert forall j :: 0 <= j < |blocks| ==> blocks'[j].addr == blocks[j].addr && blocks'[j].size == blocks[j].size;
    assert Shape(blocks', ph.range) by {
      forall j, k | 0 <= j < k < |blocks'| ensures blocks'[j].Before(blocks'[k]) {
        assert blocks[j].Before(blocks[k]);
      }
    }
    SameExtents(blocks, blocks', ph.ext);
  }

  lemma SameExtents(blocks: seq<Block>, blocks': seq<Block>, ext: map<nat, nat>)
    requires Extents(blocks, ext) && |blocks'| == |blocks|
    requires forall j :: 0 <= j < |blocks| ==> blocks'[j].addr == blocks[j].addr && blocks'[j].size == blocks[j].size
    ensures Extents(blocks', ext)
  {
    forall b | b in ext ensures exists j :: Starts(blocks', j, b) {
      var j :| Starts(blocks, j, b);
      assert Starts(blocks', j, b);
    }
  }

  lemma CopiesWritten(ph: Phys.Phys, a: nat, s: seq<byte>, b: Block)
    requires Copies(ph.data, b) && b.Holds(a, |s|) && Phys.Readable(ph, a, |s|)
    ensures Copies(Phys.Poke(ph, a, s).data, b.(pages := Overwrite(b.pages, a - b.addr, s)))
  {
    hide Phys.Readable;
  }

  lemma CopiesElsewhere(ph: Phys.Phys, a: nat, s: seq<byte>, b: Block)
    requires Copies(ph.data, b) && (a + |s| <= b.addr || b.End() <= a)
    ensures Copies(Phys.Poke(ph, a, s).data, b)
  {
    hide Phys.Readable;
  }

  function NewBlock(addr: nat, size: nat): (b: Block)
    ensures b.Backed? && b.addr == addr && b.size == size
  {
    Backed(addr, size, seq(Phys.RoundUp(size), i => 0))
  }

  function Without(blocks: seq<Block>, i: nat): seq<Block>
    requires i < |blocks|
  {
    blocks[..i] + blocks[i + 1..]
  }

  /** The list and the cursor after erasing block i, which holds addr. */
  ghost predicate Erased(blocks: seq<Block>, cursor: Cursor, addr: nat, i: nat, blocks': seq<Block>, cursor': Cursor)
  {
    i < |blocks| && blocks[i].Holds(addr, 1) && blocks' == Without(blocks, i) && cursor' == CursorWithout(cursor, i)
  }

  /** An iterator stays on its node, unless that is the one erased. */
  function CursorWithout(c: Cursor, i: nat): Cursor
  {
    if c == At(i) then Dangling else if c.At? && c.index > i then At(c.index - 1) else c
  }

  /** A live cursor is on a block that starts at an address of the memory. */
  lemma CursorListed(blocks: seq<Block>, ph: Phys.Phys, c: Cursor)
    requires Represents(blocks, ph)
    ensures CursorStays(ph, UnderCursor(blocks, c), ph, UnderCursor(blocks, c))
  {
    hide Phys.PhysOk, Copies, Sorted;
    if c.At? && c.index < |blocks| { assert c.index == 0 || c.index == |blocks| - 1 || Inner(blocks, c.index); }
  }

  lemma CursorRemoved(blocks: seq<Block>, ph: Phys.Phys, i: nat, c: Cursor)
    requires Represents(blocks, ph) && Inner(blocks, i) && blocks[i].addr in ph.ext
    requires c.At? ==> c.index < |blocks|
    ensures CursorStays(ph, UnderCursor(blocks, c), Phys.Erase(ph, blocks[i].addr),
                        UnderCursor(Without(blocks, i), CursorWithout(c, i)))
  {
    hide Phys.PhysOk, Copies;
    CursorListed(blocks, ph, c);
    if c.At? && c.index != i { Apart(blocks, ph.range, c.index, i); }
  }

  /** The scan of insert backwards: the nearest block ahead of block i that comes before blk. */
  function Back(blocks: seq<Block>, i: nat, blk: Block): (j: Option<nat>)
    requires i < |blocks|
    ensures j.Some? ==> j.value < i
  {
    if i == 0 then None else if blocks[i - 1].Before(blk) then Some(i - 1) else Back(blocks, i - 1, blk)
  }

  /** And forwards: the nearest block behind block i that comes after blk. */
  function Ahead(blocks: seq<Block>, i: nat, blk: Block): (j: Option<nat>)
    requires i < |blocks|
    ensures j.Some? ==> i < j.value < |blocks|
    decreases |blocks| - i
  {
    if i + 1 == |blocks| then None else if blk.Before(blocks[i + 1]) then Some(i + 1) else Ahead(blocks, i + 1, blk)
  }

  /** Where insert puts blk, if anywhere, and on which block it leaves the cursor. */
  datatype Scan = Scan(at: Option<nat>, cursor: nat)

  function ScanFrom(blocks: seq<Block>, i: nat, blk: Block): (s: Scan)
    requires i < |blocks|
    ensures s.at.Some? ==> 0 < s.at.value < |blocks| && s.cursor <= |blocks|
    ensures s.at.None? ==> s.cursor < |blocks|
  {
    if blk.Before(blocks[i]) then
      var j := Back(blocks, i, blk); if j.Some? then Scan(Some(j.value + 1), j.value) else Scan(None, 0)
    else if blocks[i].Before(blk) then
      var j := Ahead(blocks, i, blk); if j.Some? then Scan(j, j.value + 1) else Scan(None, |blocks| - 1)
    else Scan(None, i)
  }

  /** What insert does to the list and the cursor, whether the range is free or not. */
  ghost predicate Inserted(blocks: seq<Block>, c: Cursor, blk: Block, ok: bool, blocks': seq<Block>, c': Cursor)
  {
    && c.At? && c.index < |blocks|
    && var s := ScanFrom(blocks, c.index, blk);
       && ok == s.at.Some? && c' == At(s.cursor)
       && blocks' == if ok then Splice(blocks, s.at.value, blk) else blocks
  }

  lemma {:induction false} BackIsNearest(blocks: seq<Block>, i: nat, blk: Block)
    requires i < |blocks|
    ensures match Back(blocks, i, blk)
      case Some(j) => blocks[j].Before(blk) && forall x :: j < x < i ==> !blocks[x].Before(blk)
      case None => forall x :: 0 <= x < i ==> !blocks[x].Before(blk)
  {
    if i > 0 && !blocks[i - 1].Before(blk) { BackIsNearest(blocks, i - 1, blk); }
  }

  lemma {:induction false} AheadIsNearest(blocks: seq<Block>, i: nat, blk: Block)
    requires i < |blocks|
    ensures match Ahead(blocks, i, blk)
      case Some(j) => blk.Before(blocks[j]) && forall x :: i < x < j ==> !blk.Before(blocks[x])
      case None => forall x :: i < x < |blocks| ==> !blk.Before(blocks[x])
    decreases |blocks| - i
  {
    if i + 1 < |blocks| && !blk.Before(blocks[i + 1]) { AheadIsNearest(blocks, i + 1, blk); }
  }

  /** Behind the nearest block ahead of block i that comes before blk; the cursor is on that block. */
  ghost predicate LandedBack(blocks: seq<Block>, i: nat, blk: Block, blocks': seq<Block>, c: Cursor)
  {
    && i < |blocks| && c.At? && c.index < i && blocks[c.index].Before(blk)
    && (forall x :: c.index < x < i ==> !blocks[x].Before(blk))
    && blocks' == blocks[..c.index + 1] + [blk] + blocks[c.index + 1..]
  }

  /** In front of the nearest block behind block i that comes after blk; the cursor is on that block. */
  ghost predicate LandedAhead(blocks: seq<Block>, i: nat, blk: Block, blocks': seq<Block>, c: Cursor)
  {
    && c.At? && i + 1 < c.index <= |blocks| && blk.Before(blocks[c.index - 1])
    && (forall x :: i < x < c.index - 1 ==> !blk.Before(blocks[x]))
    && blocks' == blocks[..c.index - 1] + [blk] + blocks[c.index - 1..]
  }

  /** insert of any range, free or not, is refused exactly if it overlaps the block under the cursor or
      there is no block on the other side of it. */
  lemma InsertLands(blocks: seq<Block>, c: Cursor, blk: Block, ok: bool, blocks': seq<Block>, c': Cursor)
    requires Inserted(blocks, c, blk, ok, blocks', c') && blk.size > 0
    ensures ok <==>
      (blk.Before(blocks[c.index]) && exists j :: 0 <= j < c.index && blocks[j].Before(blk))
      || (blocks[c.index].Before(blk) && exists j :: c.index < j < |blocks| && blk.Before(blocks[j]))
    ensures ok && blk.Before(blocks[c.index]) ==> LandedBack(blocks, c.index, blk, blocks', c')
    ensures ok && blocks[c.index].Before(blk) ==> LandedAhead(blocks, c.index, blk, blocks', c')
  {
    BackIsNearest(blocks, c.index, blk);
    AheadIsNearest(blocks, c.index, blk);
  }

  lemma ScanStep(blocks: seq<Block>, i: nat, blk: Block)
    requires i < |blocks|
    ensures Back(blocks, i, blk) ==
      if i == 0 then None else if blocks[i - 1].Before(blk) then Some(i - 1) else Back(blocks, i - 1, blk)
    ensures Back(blocks, 0, blk) == None
    ensures i + 1 < |blocks| ==>
      Ahead(blocks, i, blk) == if blk.Before(blocks[i + 1]) then Some(i + 1) else Ahead(blocks, i + 1, blk)
  {
  }

  lemma InsertedWhen(blocks: seq<Block>, i: nat, blk: Block)
    requires i < |blocks|
    ensures blk.Before(blocks[i]) ==> match Back(blocks, i, blk)
      case Some(j) => Inserted(blocks, At(i), blk, true, Splice(blocks, j + 1, blk), At(j))
      case None => Inserted(blocks, At(i), blk, false, blocks, At(0))
    ensures !blk.Before(blocks[i]) && blocks[i].Before(blk) ==> match Ahead(blocks, i, blk)
      case Some(j) => Inserted(blocks, At(i), blk, true, Splice(blocks, j, blk), At(j + 1))
      case None => true
    ensures !blk.Before(blocks[i]) && !blocks[i].Before(blk) ==> Inserted(blocks, At(i), blk, false, blocks, At(i))
  {
    hide Splice, Back, Ahead;
  }

  /** A sequence of inserts from a cursor on block i: the list and the cursor at the end. */
  function InsertAll(blocks: seq<Block>, i: nat, ranges: seq<(nat, nat)>): (r: (seq<Block>, nat))
    requires i < |blocks|
    ensures r.1 < |r.0|
    decreases |ranges|
  {
    if ranges == [] then (blocks, i) else
    var blk := NewBlock(ranges[0].0, ranges[0].1);
    var s := ScanFrom(blocks, i, blk);
    InsertAll(if s.at.Some? then Splice(blocks, s.at.value, blk) else blocks, s.cursor, ranges[1..])
  }

  /** The same without a cursor. */
  function InsertAllFromHead(blocks: seq<Block>, ranges: seq<(nat, nat)>): seq<Block>
    decreases |ranges|
  {
    if ranges == [] then blocks
    else InsertAllFromHead(InsertFromHead(blocks, NewBlock(ranges[0].0, ranges[0].1)), ranges[1..])
  }

  /** Each range is free, and below the sentinel, when its turn comes. */
  ghost predicate AllFree(blocks: seq<Block>, range: nat, ranges: seq<(nat, nat)>)
    decreases |ranges|
  {
    ranges == [] ||
    (var (addr, size) := ranges[0];
     && size > 0 && addr + size <= range && Fits(blocks, addr, size)
     && AllFree(InsertFromHead(blocks, NewBlock(addr, size)), range, ranges[1..]))
  }

  lemma {:induction false} BackFinds(blocks: seq<Block>, i: nat, blk: Block)
    requires i < |blocks| && blk.Before(blocks[i]) && Fits(blocks, blk.addr, blk.size) && blk.size > 0
    requires blocks[0].addr == 0
    ensures var j := Back(blocks, i, blk);
      j.Some? && blocks[j.value].Before(blk) && blk.Before(blocks[j.value + 1])
  {
    if i > 0 && !blocks[i - 1].Before(blk) { BackFinds(blocks, i - 1, blk); }
  }

  lemma {:induction false} AheadFinds(blocks: seq<Block>, i: nat, blk: Block)
    requires i < |blocks| && blocks[i].Before(blk) && Fits(blocks, blk.addr, blk.size) && blk.size > 0
    requires blk.Before(blocks[|blocks| - 1]) && blocks[|blocks| - 1].size > 0
    ensures var j := Ahead(blocks, i, blk);
      j.Some? && blocks[j.value - 1].Before(blk) && blk.Before(blocks[j.value])
    decreases |blocks| - i
  {
    if i + 1 < |blocks| && !blk.Before(blocks[i + 1]) { AheadFinds(blocks, i + 1, blk); }
  }

  /** From any cursor, a free range goes where a scan from the head would put it. */
  lemma ScanIsFromHead(blocks: seq<Block>, range: nat, i: nat, addr: nat, size: nat)
    requires Shape(blocks, range) && i < |blocks| && size > 0 && addr + size <= range && Fits(blocks, addr, size)
    ensures var blk := NewBlock(addr, size); var s := ScanFrom(blocks, i, blk);
      && s.at.Some? && Splice(blocks, s.at.value, blk) == InsertFromHead(blocks, blk)
      && Shape(InsertFromHead(blocks, blk), range) && |InsertFromHead(blocks, blk)| == |blocks| + 1
  {
    var blk := NewBlock(addr, size);
    FitsAt(blocks, i, addr, size);
    if blk.Before(blocks[i]) { BackFinds(blocks, i, blk); } else { AheadFinds(blocks, i, blk); }
    var at := ScanFrom(blocks, i, blk).at.value;
    hide Sorted, Splice, InsertFromHead, Fits, ScanFrom;
    SpliceBetween(blocks, at, blk);
    SpliceIsFromHead(blocks, at, blk);
    SortedSplice(blocks, at, blk);
    SpliceShape(blocks, range, at, blk);
  }

  lemma {:induction false} InsertAllIsFromHead(blocks: seq<Block>, range: nat, i: nat, ranges: seq<(nat, nat)>)
    requires Shape(blocks, range) && i < |blocks| && AllFree(blocks, range, ranges)
    ensures InsertAll(blocks, i, ranges).0 == InsertAllFromHead(blocks, ranges)
    decreases |ranges|
  {
    hide Shape, Fits, InsertFromHead, Splice, ScanFrom, NewBlock;
    if ranges != [] {
      var (addr, size) := ranges[0];
      var blk := NewBlock(addr, size);
      ScanIsFromHead(blocks, range, i, addr, size);
      InsertAllIsFromHead(InsertFromHead(blocks, blk), range, ScanFrom(blocks, i, blk).cursor, ranges[1..]);
    }
  }

  /** The cursor is only a speed-up: memories with the same blocks and different live cursors stay
      the same under every sequence of inserts of free ranges. */
  lemma CursorDoesNotMatter(blocks: seq<Block>, range: nat, i: nat, j: nat, ranges: seq<(nat, nat)>)
    requires Shape(blocks, range) && i < |blocks| && j < |blocks| && AllFree(blocks, range, ranges)
    ensures InsertAll(blocks, i, ranges).0 == InsertAll(blocks, j, ranges).0
  {
    hide Shape, AllFree, InsertAll;
    InsertAllIsFromHead(blocks, range, i, ranges);
    InsertAllIsFromHead(blocks, range, j, ranges);
  }

  /** Sorted insertion by a scan from the head: no cursor. */
  function InsertFromHead(blocks: seq<Block>, blk: Block): seq<Block>
  {
    if blocks == [] || blk.Before(blocks[0]) then [blk] + blocks
    else [blocks[0]] + InsertFromHead(blocks[1..], blk)
  }

  lemma {:induction false} SpliceIsFromHead(blocks: seq<Block>, at: nat, blk: Block)
    requires at < |blocks| && blk.Before(blocks[at]) && forall j :: 0 <= j < at ==> !blk.Before(blocks[j])
    ensures Splice(blocks, at, blk) == InsertFromHead(blocks, blk)
  {
    if at > 0 {
      SpliceIsFromHead(blocks[1..], at - 1, blk);
    }
  }

  /** The free ranges of the memory are those that overlap no block of the list. */
  lemma Room(blocks: seq<Block>, ph: Phys.Phys, addr: nat, size: nat)
    requires Represents(blocks, ph) && size > 0 && addr + size <= ph.range
    ensures Fits(blocks, addr, size) <==> Phys.Gap(ph, addr, size)
    ensures |blocks| >= 2 && addr + size <= blocks[|blocks| - 1].addr && blocks[0].addr == 0
    ensures var blk, last := NewBlock(addr, size), blocks[|blocks| - 1];
      blk.Before(last) && !last.Before(blk) && !blk.Before(blocks[0])
  {
    hide Phys.PhysOk, Copies, Sorted;
  }

  lemma FitsAt(blocks: seq<Block>, i: nat, addr: nat, size: nat)
    requires i < |blocks|
    ensures Fits(blocks, addr, size) ==>
      blocks[i].Before(NewBlock(addr, size)) || NewBlock(addr, size).Before(blocks[i])
  {
  }

  lemma Spliced(blocks: seq<Block>, ph: Phys.Phys, at: nat, addr: nat, size: nat)
    requires Represents(blocks, ph) && 0 < at < |blocks| && size > 0 && addr + size <= ph.range
    requires var blk := NewBlock(addr, size);
      Fits(blocks, addr, size) ==> blocks[at - 1].Before(blk) && blk.Before(blocks[at])
    ensures var blk := NewBlock(addr, size);
      && |Splice(blocks, at, blk)| == |blocks| + 1
      && (Sorted(Splice(blocks, at, blk)) <==> Fits(blocks, addr, size))
      && Phys.Insert(ph, addr, size).range == ph.range
      && (Fits(blocks, addr, size) ==>
          && Splice(blocks, at, blk) == InsertFromHead(blocks, blk)
          && Represents(Splice(blocks, at, blk), Phys.Insert(ph, addr, size)))
  {
    var blk := NewBlock(addr, size);
    assert Phys.Insert(ph, addr, size).range == ph.range;
    hide *;
    ShapeOf(blocks, ph);
    SortedSplice(blocks, at, blk);
    if Fits(blocks, addr, size) {
      SpliceBetween(blocks, at, blk);
      SpliceIsFromHead(blocks, at, blk);
      Room(blocks, ph, addr, size);
      SpliceRepresents(blocks, ph, at, addr, size);
    }
  }

  lemma ShapeOf(blocks: seq<Block>, ph: Phys.Phys)
    requires Represents(blocks, ph)
    ensures Shape(blocks, ph.range) && Sorted(blocks) && Phys.PhysOk(ph) && Extents(blocks, ph.ext)
  {
    hide Phys.PhysOk, Sorted, Extents, Copies;
  }

  lemma SortedSplice(blocks: seq<Block>, at: nat, blk: Block)
    requires Sorted(blocks) && 0 < at < |blocks|
    requires Fits(blocks, blk.addr, blk.size) ==> blocks[at - 1].Before(blk) && blk.Before(blocks[at])
    ensures |Splice(blocks, at, blk)| == |blocks| + 1
    ensures Sorted(Splice(blocks, at, blk)) <==> Fits(blocks, blk.addr, blk.size)
  {
    var s := Splice(blocks, at, blk);
    if Sorted(s) {
      forall i | 0 <= i < |blocks| ensures blocks[i].Before(blk) || blk.Before(blocks[i]) {
        if i < at { assert s[i].Before(s[at]); } else { assert s[at].Before(s[i + 1]); }
      }
    }
    if Fits(blocks, blk.addr, blk.size) {
      forall i, j | 0 <= i < j < |s| ensures s[i].Before(s[j]) {
        if i < at - 1 && j == at { assert blocks[i].Before(blocks[at - 1]); }
        if i == at && j > at + 1 { assert blocks[at].Before(blocks[j - 1]); }
      }
    }
  }

  lemma SpliceBetween(blocks: seq<Block>, at: nat, blk: Block)
    requires Sorted(blocks) && 0 < at < |blocks| && blk.size > 0
    requires blocks[at - 1].Before(blk) && blk.Before(blocks[at])
    ensures forall j :: 0 <= j < at ==> !blk.Before(blocks[j])
  {
  }

  lemma SpliceRepresents(blocks: seq<Block>, ph: Phys.Phys, at: nat, addr: nat, size: nat)
    requires Represents(blocks, ph) && 0 < at < |blocks| && size > 0 && Phys.Gap(ph, addr, size)
    requires Fits(blocks, addr, size) && Sorted(Splice(blocks, at, NewBlock(addr, size)))
    ensures Represents(Splice(blocks, at, NewBlock(addr, size)), Phys.Insert(ph, addr, size))
  {
    Phys.InsertValid(ph, addr, size);
    hide Phys.PhysOk, Phys.Gap, Phys.Insert, Shape, Extents, Fits, Sorted, Copies, Splice;
    var blk := NewBlock(addr, size);
    SpliceShape(blocks, ph.range, at, blk);
    SpliceExtents(blocks, ph.ext, at, blk);
    InsertFields(ph, addr, size);
    forall i | Inner(Splice(blocks, at, blk), i)
      ensures Copies(Phys.Insert(ph, addr, size).data, Splice(blocks, at, blk)[i])
    {
      SpliceAt(blocks, at, blk, i);
      if i == at {
        NewBlockCopies(ph, addr, size);
      } else {
        var j := if i < at then i else i - 1;
        assert Copies(ph.data, blocks[j]);
        FitsAt(blocks, j, addr, size);
        CopiesBeside(ph, addr, size, blocks[j]);
      }
    }
  }

  lemma InsertFields(ph: Phys.Phys, addr: nat, size: nat)
    ensures Phys.Insert(ph, addr, size).range == ph.range
    ensures Phys.Insert(ph, addr, size).ext == ph.ext[addr := size]
  {
  }

  lemma SpliceAt(blocks: seq<Block>, at: nat, blk: Block, i: nat)
    requires 0 < at < |blocks|
    ensures |Splice(blocks, at, blk)| == |blocks| + 1
    ensures i <= |blocks| ==>
      Splice(blocks, at, blk)[i] == if i < at then blocks[i] else if i == at then blk else blocks[i - 1]
    ensures Inner(Splice(blocks, at, blk), i) && i != at ==> Inner(blocks, if i < at then i else i - 1)
  {
  }

  lemma SpliceShape(blocks: seq<Block>, range: nat, at: nat, blk: Block)
    requires Shape(blocks, range) && 0 < at < |blocks| && Sorted(Splice(blocks, at, blk))
    requires blk.Backed? && blk.size > 0 && |blk.pages| == Phys.RoundUp(blk.size)
    ensures Shape(Splice(blocks, at, blk), range)
  {
  }

  lemma SpliceExtents(blocks: seq<Block>, ext: map<nat, nat>, at: nat, blk: Block)
    requires Extents(blocks, ext) && 0 < at < |blocks| && blk.addr !in ext
    ensures Extents(Splice(blocks, at, blk), ext[blk.addr := blk.size])
  {
    var s := Splice(blocks, at, blk);
    forall i | Inner(s, i) && i != at ensures s[i].addr in ext && ext[s[i].addr] == s[i].size && s[i].addr != blk.addr {
      assert Inner(blocks, if i < at then i else i - 1);
    }
    assert Starts(s, at, blk.addr);
    forall b | b in ext ensures exists i :: Starts(s, i, b) {
      var j :| Starts(blocks, j, b);
      assert Starts(s, if j < at then j else j + 1, b);
    }
  }

  lemma NewBlockCopies(ph: Phys.Phys, addr: nat, size: nat)
    ensures Copies(Phys.Insert(ph, addr, size).data, NewBlock(addr, size))
  {
  }

  lemma CopiesBeside(ph: Phys.Phys, addr: nat, size: nat, b: Block)
    requires Copies(ph.data, b) && (addr + size <= b.addr || b.End() <= addr)
    ensures Copies(Phys.Insert(ph, addr, size).data, b)
  {
  }

  lemma WithoutLength(blocks: seq<Block>, i: nat)
    requires i < |blocks|
    ensures |Without(blocks, i)| == |blocks| - 1
  {
  }

  /** Blocks start at increasing addresses, so the scan can stop at the first one above addr. */
  lemma NoneAfter(blocks: seq<Block>, range: nat, i: nat, addr: nat)
    requires Shape(blocks, range) && i < |blocks| && addr < blocks[i].addr
    ensures forall j :: i <= j < |blocks| ==> !blocks[j].Holds(addr, 1)
  {
  }

  lemma NotHeld(blocks: seq<Block>, ph: Phys.Phys, addr: nat)
    requires Represents(blocks, ph) && forall i :: 0 <= i < |blocks| ==> !blocks[i].Holds(addr, 1)
    ensures forall b: nat :: !Phys.InBlock(ph, b, addr, 1)
  {
  }

  lemma Removed(blocks: seq<Block>, ph: Phys.Phys, i: nat, addr: nat)
    requires Represents(blocks, ph) && i < |blocks| && blocks[i].Holds(addr, 1) && Phys.LOW_END <= addr < ph.range
    ensures Inner(blocks, i) && blocks[i].addr in ph.ext && Phys.InBlock(ph, blocks[i].addr, addr, 1)
    ensures forall b: nat :: Phys.InBlock(ph, b, addr, 1) ==> b == blocks[i].addr
    ensures Represents(Without(blocks, i), Phys.Erase(ph, blocks[i].addr))
    ensures Phys.Erase(ph, blocks[i].addr).range == ph.range
  {
    assert Inner(blocks, i);
    Phys.EraseValid(ph, blocks[i].addr);
    WithoutRepresents(blocks, ph, i);
  }

  lemma WithoutRepresents(blocks: seq<Block>, ph: Phys.Phys, i: nat)
    requires Represents(blocks, ph) && Inner(blocks, i) && blocks[i].addr in ph.ext
    requires Phys.PhysOk(Phys.Erase(ph, blocks[i].addr))
    ensures Represents(Without(blocks, i), Phys.Erase(ph, blocks[i].addr))
  {
    hide Phys.PhysOk, Copies, Shape, Extents, Sorted, Without;
    var s, ph' := Without(blocks, i), Phys.Erase(ph, blocks[i].addr);
    WithoutShape(blocks, ph.range, i);
    WithoutExtents(blocks, ph.range, ph.ext, i);
    forall j | Inner(s, j) ensures Copies(ph'.data, s[j]) {
      WithoutAt(blocks, i, j);
      var o := if j < i then j else j + 1;
      assert Copies(ph.data, blocks[o]) && Copies(ph.data, blocks[i]);
      Apart(blocks, ph.range, i, o);
      ExtentAt(blocks, ph.ext, i);
      CopiesErased(ph, blocks[i].addr, blocks[o]);
    }
  }

  lemma ExtentAt(blocks: seq<Block>, ext: map<nat, nat>, i: nat)
    requires Extents(blocks, ext) && Inner(blocks, i)
    ensures blocks[i].addr in ext && ext[blocks[i].addr] == blocks[i].size
  {
  }

  lemma WithoutAt(blocks: seq<Block>, i: nat, j: nat)
    requires i < |blocks|
    ensures |Without(blocks, i)| == |blocks| - 1
    ensures j + 1 < |blocks| ==> Without(blocks, i)[j] == blocks[if j < i then j else j + 1]
    ensures Inner(blocks, i) && Inner(Without(blocks, i), j) ==> Inner(blocks, if j < i then j else j + 1)
  {
  }

  lemma WithoutShape(blocks: seq<Block>, range: nat, i: nat)
    requires Shape(blocks, range) && Inner(blocks, i)
    ensures Shape(Without(blocks, i), range)
  {
  }

  lemma WithoutExtents(blocks: seq<Block>, range: nat, ext: map<nat, nat>, i: nat)
    requires Shape(blocks, range) && Extents(blocks, ext) && Inner(blocks, i)
    ensures Extents(Without(blocks, i), ext - {blocks[i].addr})
  {
    hide Shape, Sorted, Without;
    var s := Without(blocks, i);
    forall j | Inner(s, j) ensures s[j].addr in ext - {blocks[i].addr} && ext[s[j].addr] == s[j].size {
      WithoutAt(blocks, i, j);
      StartsApart(blocks, range, i, if j < i then j else j + 1);
    }
    forall b | b in ext - {blocks[i].addr} ensures exists j :: Starts(s, j, b) {
      var j: nat :| Starts(blocks, j, b);
      WithoutAt(blocks, i, if j < i then j else j - 1);
      assert Starts(s, if j < i then j else j - 1, b);
    }
  }

  lemma StartsApart(blocks: seq<Block>, range: nat, i: nat, j: nat)
    requires Shape(blocks, range) && Inner(blocks, i) && Inner(blocks, j) && i != j
    ensures blocks[i].addr != blocks[j].addr
  {
  }

  lemma CopiesErased(ph: Phys.Phys, b: nat, blk: Block)
    requires b in ph.ext && Copies(ph.data, blk)
    requires b + ph.ext[b] <= blk.addr || blk.End() <= b
    ensures Copies(Phys.Erase(ph, b).data, blk)
  {
  }
}
