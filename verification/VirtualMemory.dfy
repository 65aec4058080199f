/** Virtual memory as a task sees it, and the byte-by-byte form of virtual writes. */
module VirtualMemory {
  import opened Options
  import opened Words
  import opened Bits
  import opened Sv39
  import opened Phys
  import opened PageTable
  import opened ForestChanges
  import opened Allocation

  /** The byte that a task finds at a virtual address, None when the page is not mapped. */
  ghost function View(ph: Phys, root: nat, x: nat): Option<byte>
    requires PhysOk(ph)
  {
    var a := Convert(ph, root, x);
    if a == 0 || a !in ph.data then None else Some(ph.data[a])
  }

  /** Writing byte by byte: byte i goes to convert(root, v + i). */
  ghost function PutBytes(ph: Phys, root: nat, v: nat, s: seq<byte>): (r: Phys)
    requires PhysOk(ph)
    ensures PhysOk(r)
  {
    if s == [] then ph else
    var r := PutBytes(ph, root, v, s[..|s| - 1]);
    var a := Convert(r, root, v + |s| - 1);
    PokeValid(r, a, [s[|s| - 1]]);
    Poke(r, a, [s[|s| - 1]])
  }

  /** n is how many bytes of a range come before the first unmapped one. */
  ghost predicate Reaches(ph: Phys, root: nat, v: nat, size: nat, n: nat)
    requires PhysOk(ph)
  {
    && n <= size && (n < size ==> Convert(ph, root, v + n) == 0)
    && forall x :: v <= x < v + n ==> Convert(ph, root, x) != 0
  }

  /** The page mask of act_virt. */
  lemma PageMask(x: nat)
    ensures And(x, 0x7f_ffff_f000) == Vpn(x) * PAGE_SIZE
  {
    hide And, Shr, Shl, Low, Pow2, Width;
    var mask := Pow2(27) - 1;
    PowerValues();
    Power27();
    ShiftLeftIsTimes(mask, 12);
    AndShifted(x, mask, 12);
    AndLowMask(Shr(x, 12), 27);
    DivMod(x, 12);
    DivMod(Shr(x, 12), 27);
    ShiftLeftIsTimes(Vpn(x), 12);
  }

  lemma Power27()
    ensures Pow2(27) == 0x800_0000
  {
    PowerValues();
    assert Pow2(24) == 8 * Pow2(21);
    assert Pow2(27) == 8 * Pow2(24);
  }

  /** Neighbouring bytes have the same page number exactly when they share a page. */
  lemma NextByte(x: nat)
    ensures Vpn(x + 1) == Vpn(x) <==> (x + 1) % PAGE_SIZE == x % PAGE_SIZE + 1
  {
    hide Width;
  }

  lemma ConvertInPage(ph: Phys, root: nat, x: nat)
    requires PhysOk(ph)
    ensures Convert(ph, root, x) % PAGE_SIZE == if Convert(ph, root, x) == 0 then 0 else x % PAGE_SIZE
    ensures Convert(ph, root, x) == 0 <==> Translate(ph, root, Vpn(x)) == 0
  {
    hide Convert, Word, PhysOk, VAextract, Vpn, Entry, Width;
    ConvertIsWalk(ph, root, x);
  }

  lemma ConvertNext(ph: Phys, root: nat, x: nat)
    requires PhysOk(ph) && Vpn(x + 1) == Vpn(x)
    ensures Convert(ph, root, x + 1) == if Convert(ph, root, x) == 0 then 0 else Convert(ph, root, x) + 1
  {
    hide Convert, Walk, PhysOk, Vpn;
    ConvertIsWalk(ph, root, x);
    ConvertIsWalk(ph, root, x + 1);
    NextByte(x);
  }

  lemma VpnBound(x: nat)
    ensures Vpn(x) < Width(3)
    ensures x < VA_END ==> Vpn(x) == x / PAGE_SIZE
  {
  }

  /** A mapped address and the rest of its page lie in one data block of the root. */
  lemma MappedPage(ph: Phys, k: map<nat, Kind>, root: nat, x: nat) returns (d: nat)
    requires PhysOk(ph) && Forest(ph, k) && IsRoot(k, root) && Convert(ph, root, x) != 0
    ensures d in k && k[d].Data? && k[d].root == root
    ensures InBlock(ph, d, Convert(ph, root, x), 1)
    ensures forall n: nat :: n <= PAGE_SIZE - x % PAGE_SIZE ==> InBlock(ph, d, Convert(ph, root, x), n)
  {
    hide Convert, Walk, Vpn, Width, TableOk;
    ConvertIsWalk(ph, root, x);
    VpnBound(x);
    TranslateFindsData(ph, k, root, Vpn(x));
    var p: nat :| LeafInto(ph, k, root, Vpn(x), Translate(ph, root, Vpn(x)), p);
    d := p;
  }

  lemma ConvertFrame(ph: Phys, ph': Phys, k: map<nat, Kind>, r: nat, x: nat)
    requires PhysOk(ph) && PhysOk(ph') && SameTranslations(ph, ph', k) && IsRoot(k, r)
    ensures Convert(ph', r, x) == Convert(ph, r, x)
  {
    hide Convert, Walk, PhysOk, Vpn, Width;
    ConvertIsWalk(ph, r, x);
    ConvertIsWalk(ph', r, x);
    VpnBound(x);
  }

  /** No byte of physical memory shows up at two virtual addresses. */
  lemma ConvertInjective(ph: Phys, k: map<nat, Kind>, r: nat, x: nat, r': nat, x': nat)
    requires PhysOk(ph) && Forest(ph, k) && IsRoot(k, r) && IsRoot(k, r') && x < VA_END && x' < VA_END
    requires Convert(ph, r, x) == Convert(ph, r', x') != 0
    ensures r == r' && x == x'
  {
    hide Forest, Convert, Walk, PhysOk, Vpn, Width;
    ConvertIsWalk(ph, r, x);
    ConvertIsWalk(ph, r', x');
    VpnBound(x);
    VpnBound(x');
    TranslateAligned(ph, r, Vpn(x));
    TranslateAligned(ph, r', Vpn(x'));
    TranslateInjective(ph, k, r, Vpn(x), r', Vpn(x'));
  }

  lemma TranslateAligned(ph: Phys, root: nat, q: nat)
    requires PhysOk(ph)
    ensures Translate(ph, root, q) % PAGE_SIZE == 0
  {
  }

  lemma SameTranslationsTrans(ph: Phys, ph1: Phys, ph2: Phys, k: map<nat, Kind>)
    requires PhysOk(ph) && PhysOk(ph1) && PhysOk(ph2) && SameTranslations(ph, ph1, k) && SameTranslations(ph1, ph2, k)
    ensures SameTranslations(ph, ph2, k)
  {
    hide Translate, Width, PhysOk;
  }

  /** One byte through a page table. */
  lemma PutByteForest(ph: Phys, k: map<nat, Kind>, root: nat, x: nat, b: byte)
    requires PhysOk(ph) && Forest(ph, k) && IsRoot(k, root)
    ensures var ph' := Poke(ph, Convert(ph, root, x), [b]);
      && PhysOk(ph') && Forest(ph', k) && SameTranslations(ph, ph', k) && ph'.ext == ph.ext
      && (Convert(ph, root, x) == 0 ==> ph' == ph)
  {
    hide *;
    if Convert(ph, root, x) == 0 {
      LowIsNotReadable(ph, [b]);
      SameTranslationsRefl(ph, k);
    } else {
      var d := MappedPage(ph, k, root, x);
      assert |[b]| == 1;
      WriteDataForest(ph, k, d, Convert(ph, root, x), [b]);
    }
  }

  lemma LowIsNotReadable(ph: Phys, s: seq<byte>)
    requires PhysOk(ph) && s != []
    ensures Poke(ph, 0, s) == ph
  {
  }

  lemma {:induction false} PutBytesForest(ph: Phys, k: map<nat, Kind>, root: nat, v: nat, s: seq<byte>)
    requires PhysOk(ph) && Forest(ph, k) && IsRoot(k, root)
    ensures var ph' := PutBytes(ph, root, v, s);
      Forest(ph', k) && SameTranslations(ph, ph', k) && ph'.ext == ph.ext
    decreases |s|
  {
    hide Forest, Convert, Poke, SameTranslations, PhysOk;
    if s == [] {
      SameTranslationsRefl(ph, k);
    } else {
      PutBytesForest(ph, k, root, v, s[..|s| - 1]);
      var r := PutBytes(ph, root, v, s[..|s| - 1]);
      PutByteForest(r, k, root, v + |s| - 1, s[|s| - 1]);
      SameTranslationsTrans(ph, r, PutBytes(ph, root, v, s), k);
    }
  }

  lemma PutByteView(ph: Phys, k: map<nat, Kind>, root: nat, y: nat, b: byte, r: nat, x: nat)
    requires PhysOk(ph) && Forest(ph, k) && IsRoot(k, root) && IsRoot(k, r) && x < VA_END && y < VA_END
    ensures var ph' := Poke(ph, Convert(ph, root, y), [b]);
      PhysOk(ph') && View(ph', r, x) ==
        if r == root && x == y && Convert(ph, root, y) != 0 then Some(b) else View(ph, r, x)
  {
    hide Forest, Convert, Poke, PhysOk, SameTranslations;
    PutByteForest(ph, k, root, y, b);
    var a := Convert(ph, root, y);
    ConvertFrame(ph, Poke(ph, a, [b]), k, r, x);
    if a != 0 {
      var d := MappedPage(ph, k, root, y);
      PokeByte(ph, d, a, b);
      if Convert(ph, r, x) == a { ConvertInjective(ph, k, r, x, root, y); }
    }
  }

  lemma PokeByte(ph: Phys, d: nat, a: nat, b: byte)
    requires PhysOk(ph) && InBlock(ph, d, a, 1)
    ensures Poke(ph, a, [b]).data == ph.data[a := b] && a in ph.data
  {
  }

  /** What a virtual write does to every task's view of memory: in the task that writes,
      the mapped addresses of the range take the new bytes; nothing else changes anywhere. */
  lemma {:induction false} PutBytesView(ph: Phys, k: map<nat, Kind>, root: nat, v: nat, s: seq<byte>, r: nat, x: nat)
    requires PhysOk(ph) && Forest(ph, k) && IsRoot(k, root) && IsRoot(k, r) && v + |s| <= VA_END && x < VA_END
    ensures View(PutBytes(ph, root, v, s), r, x) ==
      if r == root && v <= x < v + |s| && Convert(ph, root, x) != 0 then Some(s[x - v]) else View(ph, r, x)
    decreases |s|
  {
    hide Forest, Convert, Poke, SameTranslations, PhysOk, View;
    if s != [] {
      var y := v + |s| - 1;
      PutBytesView(ph, k, root, v, s[..|s| - 1], r, x);
      var p := PutBytes(ph, root, v, s[..|s| - 1]);
      PutBytesForest(ph, k, root, v, s[..|s| - 1]);
      PutByteView(p, k, root, y, s[|s| - 1], r, x);
      ConvertFrame(ph, p, k, root, y);
    }
  }

  /** On a mapped range what was written is read back. */
  lemma WriteThenRead(ph: Phys, k: map<nat, Kind>, root: nat, v: nat, s: seq<byte>)
    requires PhysOk(ph) && Forest(ph, k) && IsRoot(k, root) && v + |s| <= VA_END && Reaches(ph, root, v, |s|, |s|)
    ensures Reaches(PutBytes(ph, root, v, s), root, v, |s|, |s|)
    ensures forall i :: 0 <= i < |s| ==> View(PutBytes(ph, root, v, s), root, v + i) == Some(s[i])
  {
    hide PhysOk, Forest, Convert, PutBytes, View, SameTranslations;
    PutBytesForest(ph, k, root, v, s);
    forall x: nat | v <= x < v + |s|
      ensures Convert(PutBytes(ph, root, v, s), root, x) != 0
      ensures View(PutBytes(ph, root, v, s), root, x) == Some(s[x - v])
    {
      ConvertFrame(ph, PutBytes(ph, root, v, s), k, root, x);
      PutBytesView(ph, k, root, v, s, root, x);
    }
  }

  /** A transfer that stops short stops at a page boundary. */
  lemma StopsAtPage(ph: Phys, root: nat, v: nat, size: nat, n: nat)
    requires PhysOk(ph) && Reaches(ph, root, v, size, n) && 0 < n < size
    ensures (v + n) % PAGE_SIZE == 0
  {
    hide PhysOk, Convert, Vpn;
    var x := v + n - 1;
    if Vpn(x + 1) == Vpn(x) {
      ConvertNext(ph, root, x);
    }
    NextByte(x);
    PageEdge(x);
  }

  lemma PageEdge(x: nat)
    ensures (x + 1) % PAGE_SIZE == 0 || (x + 1) % PAGE_SIZE == x % PAGE_SIZE + 1
  {
  }

  /** Splitting a write inside one block. */
  lemma PokeSplit(ph: Phys, d: nat, a: nat, s: seq<byte>, b: byte)
    requires PhysOk(ph) && InBlock(ph, d, a, |s| + 1)
    ensures Poke(ph, a, s + [b]) == Poke(Poke(ph, a, s), a + |s|, [b])
  {
    var ph1 := Poke(ph, a, s);
    assert InBlock(ph, d, a, |s|) && InBlock(ph1, d, a + |s|, 1);
    assert Poke(ph, a, s + [b]).data == Poke(ph1, a + |s|, [b]).data;
  }

  /** The chunk of act_virt: one write inside a page is the bytes of that page one by one. */
  lemma {:induction false} ChunkIsBytes(ph: Phys, k: map<nat, Kind>, root: nat, v: nat, s: seq<byte>, b: nat, n: nat)
    requires PhysOk(ph) && Forest(ph, k) && IsRoot(k, root) && b + n <= |s|
    requires Convert(ph, root, v + b) != 0 && n <= PAGE_SIZE - (v + b) % PAGE_SIZE
    ensures Poke(PutBytes(ph, root, v, s[..b]), Convert(ph, root, v + b), s[b..b + n]) ==
      PutBytes(ph, root, v, s[..b + n])
    decreases n
  {
    hide Forest, Convert, Poke, SameTranslations, PhysOk, Vpn;
    var r, a := PutBytes(ph, root, v, s[..b]), Convert(ph, root, v + b);
    PutBytesForest(ph, k, root, v, s[..b]);
    var d := MappedPage(ph, k, root, v + b);
    assert InBlock(ph, d, a, n);
    if n == 0 {
      assert s[b..b + n] == [];
      PokeEmpty(r, a);
    } else {
      ChunkIsBytes(ph, k, root, v, s, b, n - 1);
      assert s[b..b + n] == s[b..b + n - 1] + [s[b + n - 1]];
      PokeSplit(r, d, a, s[b..b + n - 1], s[b + n - 1]);
      assert s[..b + n][..b + n - 1] == s[..b + n - 1];
      PutBytesForest(ph, k, root, v, s[..b + n - 1]);
      ConvertFrame(ph, PutBytes(ph, root, v, s[..b + n - 1]), k, root, v + b + n - 1);
      ConvertAhead(ph, root, v + b, n - 1);
    }
  }

  lemma PokeEmpty(ph: Phys, a: nat)
    ensures Poke(ph, a, []) == ph
  {
    assert Poke(ph, a, []).data == ph.data;
  }

  lemma ConvertAhead(ph: Phys, root: nat, x: nat, i: nat)
    requires PhysOk(ph) && i < PAGE_SIZE - x % PAGE_SIZE
    ensures Vpn(x + i) == Vpn(x)
    ensures Convert(ph, root, x + i) == if Convert(ph, root, x) == 0 then 0 else Convert(ph, root, x) + i
  {
    hide Convert, Walk, PhysOk, Width;
    SamePage(x, i);
    hide Vpn;
    ConvertIsWalk(ph, root, x);
    ConvertIsWalk(ph, root, x + i);
  }

  lemma SamePage(x: nat, i: nat)
    requires i < PAGE_SIZE - x % PAGE_SIZE
    ensures (x + i) % PAGE_SIZE == x % PAGE_SIZE + i && Vpn(x + i) == Vpn(x)
  {
    assert (x + i) / 4096 == x / 4096;
  }

  /** Mapped bytes exist. */
  lemma ViewMapped(ph: Phys, k: map<nat, Kind>, r: nat, x: nat)
    requires PhysOk(ph) && Forest(ph, k) && IsRoot(k, r)
    ensures View(ph, r, x).None? <==> Convert(ph, r, x) == 0
  {
    hide PhysOk, Forest, Convert;
    if Convert(ph, r, x) != 0 {
      var d := MappedPage(ph, k, r, x);
      ByteBacked(ph, d, Convert(ph, r, x));
    }
  }

  lemma ByteBacked(ph: Phys, d: nat, a: nat)
    requires PhysOk(ph) && InBlock(ph, d, a, 1)
    ensures a in ph.data
  {
  }

  /** Steps that keep the translations and the data keep what every task sees. */
  lemma ViewFrame(ph: Phys, ph': Phys, k: map<nat, Kind>, r: nat, x: nat)
    requires PhysOk(ph) && PhysOk(ph') && Forest(ph, k) && SameTranslations(ph, ph', k)
    requires KeepsData(ph, ph', k) && IsRoot(k, r)
    ensures View(ph', r, x) == View(ph, r, x)
  {
    hide PhysOk, Forest, Convert, SameTranslations;
    ConvertFrame(ph, ph', k, r, x);
    if Convert(ph, r, x) != 0 {
      var d := MappedPage(ph, k, r, x);
    }
  }

  /** What an allocation in an unmapped range does to every task's view: the new buffer appears,
      zeroed, in the task that asked for it; nothing else changes anywhere. */
  lemma AllocateView(ph: Phys, k: map<nat, Kind>, root: nat, va: nat, length: nat, k': map<nat, Kind>, p: nat,
                     m: nat, r: nat, x: nat)
    requires PhysOk(ph) && Forest(ph, k) && IsRoot(k, root) && IsRoot(k, r) && x < VA_END
    requires va % PAGE_SIZE == 0 && length > 0 && va + RoundUp(length) <= VA_END
    requires Allocated(ph, k, root, va, length, k', p, m)
    requires Allocate(ph, root, va, length).1 != 0
    requires forall y: nat :: va <= y < va + RoundUp(length) ==> Convert(ph, root, y) == 0
    ensures View(Allocate(ph, root, va, length).0, r, x) ==
      if r == root && va <= x < va + RoundUp(length) then Some(0) else View(ph, r, x)
  {
    hide PhysOk, Forest, Convert, Allocate, Allocated, RoundUp;
    if r == root && va <= x < va + RoundUp(length) {
      NewByte(ph, k, root, va, length, k', p, m, x - va);
    } else if Convert(ph, r, x) != 0 {
      AllocateKeepsView(ph, k, root, va, length, k', p, m, r, x);
    } else {
      AllocateElsewhere(ph, k, root, va, length, k', p, m, r, x);
    }
  }

  lemma NewByte(ph: Phys, k: map<nat, Kind>, root: nat, va: nat, length: nat, k': map<nat, Kind>, p: nat, m: nat,
                i: nat)
    requires PhysOk(ph) && Forest(ph, k) && IsRoot(k, root) && length > 0
    requires Allocated(ph, k, root, va, length, k', p, m)
    requires va % PAGE_SIZE == 0 && va + RoundUp(length) <= VA_END && i < RoundUp(length)
    requires Allocate(ph, root, va, length).1 != 0 && Convert(ph, root, va + i) == 0
    ensures View(Allocate(ph, root, va, length).0, root, va + i) == Some(0)
  {
    hide PhysOk, Forest, Convert, Allocate, Gap, KeepsData, MapsRange, Usable, Vpn;
    AllocateMapsByte(ph, k, Allocate(ph, root, va, length).0, k', root, va, p, RoundUp(length), m, i);
  }

  /** Whatever the outcome, mapped bytes stay where they are and as they are. */
  lemma AllocateKeepsView(ph: Phys, k: map<nat, Kind>, root: nat, va: nat, length: nat, k': map<nat, Kind>, p: nat,
                          m: nat, r: nat, x: nat)
    requires PhysOk(ph) && Forest(ph, k) && IsRoot(k, root) && IsRoot(k, r) && length > 0
    requires Allocated(ph, k, root, va, length, k', p, m) && Convert(ph, r, x) != 0
    ensures View(Allocate(ph, root, va, length).0, r, x) == View(ph, r, x)
  {
    hide PhysOk, Forest, Convert, Allocate, Gap, Usable, Vpn, Translate, Width;
    var ph' := Allocate(ph, root, va, length).0;
    ConvertIsWalk(ph, r, x);
    ConvertIsWalk(ph', r, x);
    VpnBound(x);
    var d := MappedPage(ph, k, r, x);
  }

  lemma AllocateElsewhere(ph: Phys, k: map<nat, Kind>, root: nat, va: nat, length: nat, k': map<nat, Kind>, p: nat,
                          m: nat, r: nat, x: nat)
    requires PhysOk(ph) && Forest(ph, k) && IsRoot(k, root) && IsRoot(k, r) && length > 0 && x < VA_END
    requires va % PAGE_SIZE == 0 && va + RoundUp(length) <= VA_END
    requires Allocated(ph, k, root, va, length, k', p, m) && Convert(ph, r, x) == 0
    requires r != root || !(va <= x < va + RoundUp(length))
    ensures View(Allocate(ph, root, va, length).0, r, x) == View(ph, r, x)
  {
    hide PhysOk, Forest, Convert, Allocate, Gap, Usable, Translate, Width, KeepsData, Vpn;
    var ph' := Allocate(ph, root, va, length).0;
    ConvertIsWalk(ph, r, x);
    ConvertIsWalk(ph', r, x);
    VpnBound(x);
    if r == root { PageOutside(va, RoundUp(length), x); }
    assert Translate(ph', r, Vpn(x)) == Translate(ph, r, Vpn(x));
  }

  lemma PageOutside(va: nat, n: nat, x: nat)
    requires va % PAGE_SIZE == 0 && n % PAGE_SIZE == 0 && n > 0 && va + n <= VA_END && x < VA_END && !(va <= x < va + n)
    ensures !(Vpn(va) <= Vpn(x) < Vpn(va) + n / PAGE_SIZE)
  {
    hide Width;
  }

  /** A new address space is empty, and the others do not notice it. */
  lemma CreateView(ph: Phys, k: map<nat, Kind>, root: nat, r: nat, x: nat)
    requires PhysOk(ph) && Forest(ph, k) && Gap(ph, root, PAGE_SIZE) && root % PAGE_SIZE == 0
    requires r == root || IsRoot(k, r)
    ensures var ph', k' := Insert(ph, root, PAGE_SIZE), k[root := Table(root, 0, 0)];
      PhysOk(ph') && Forest(ph', k') && root !in k && View(ph', r, x) == if r == root then None else View(ph, r, x)
  {
    hide PhysOk, Forest, Convert, Gap, Insert, KeepsData, SameTranslations, Barren, View;
    InsertForest(ph, k, root, PAGE_SIZE, Table(root, 0, 0));
    if r == root {
      EmptyRoot(Insert(ph, root, PAGE_SIZE), root, x);
    } else {
      InsertKeepsData(ph, k, root, PAGE_SIZE);
      ViewFrame(ph, Insert(ph, root, PAGE_SIZE), k, r, x);
    }
  }

  lemma EmptyRoot(ph: Phys, root: nat, x: nat)
    requires PhysOk(ph) && Barren(ph, root)
    ensures Translate(ph, root, Vpn(x)) == 0 && View(ph, root, x) == None
  {
    hide PhysOk, Entry, PTE2PA, Convert, Vpn;
    var q := Vpn(x);
    ConvertIsWalk(ph, root, x);
    ZeroEntry();
    RootPrefix(q);
    LowReadsZero(ph, q / 512 % 512);
    LowReadsZero(ph, q % 512);
    assert Walk(ph, root, 1, q / 512 / 512) == PTE2PA(Entry(ph, root, q / 512 / 512 % 512));
    assert Walk(ph, root, 2, q / 512) == PTE2PA(Entry(ph, 0, q / 512 % 512));
  }

  lemma RootPrefix(q: nat)
    ensures q / 512 / 512 % 512 < 512
  {
  }
}
