/** Physical memory as a value: which ranges are backed by pages, and what they hold. */
module Phys {
  import opened Words
  import opened Sv39

  /** The low range that the allocator reserves and never backs with pages. */
  const LOW_END: nat := 0x2000_0000

  /** ext maps the start of each backed block to its size; data holds their bytes. */
  datatype Phys = Phys(range: nat, ext: map<nat, nat>, data: map<nat, byte>)

  /** Memory without any block. */
  function Unbacked(range: nat): Phys
  {
    Phys(range, map[], map[])
  }

  function RoundUp(n: nat): (r: nat)
    ensures n <= r < n + PAGE_SIZE && r % PAGE_SIZE == 0
  {
    (n + PAGE_SIZE - 1) / PAGE_SIZE * PAGE_SIZE
  }

  ghost predicate InBlock(ph: Phys, b: nat, a: nat, n: nat)
  {
    b in ph.ext && b <= a && a + n <= b + ph.ext[b]
  }

  ghost predicate PhysOk(ph: Phys)
  {
    && (forall b :: b in ph.ext ==> ph.ext[b] > 0 && LOW_END <= b && b + ph.ext[b] <= ph.range)
    && (forall b, c :: b in ph.ext && c in ph.ext && b < c ==> b + ph.ext[b] <= c)
    && (forall b: nat, a: nat :: InBlock(ph, b, a, 1) ==> a in ph.data)
  }

  ghost predicate Paged(ph: Phys)
  {
    ph.range % PAGE_SIZE == 0 && ph.range <= MAX_PHY_RANGE
    && forall b :: b in ph.ext ==> b % PAGE_SIZE == 0 && ph.ext[b] % PAGE_SIZE == 0
  }

  /** [a, a + n) lies inside one backed block. */
  ghost predicate Readable(ph: Phys, a: nat, n: nat)
  {
    exists b: nat :: InBlock(ph, b, a, n)
  }

  lemma ReadableBytes(ph: Phys, a: nat, n: nat)
    requires PhysOk(ph) && Readable(ph, a, n)
    ensures forall i :: a <= i < a + n ==> i in ph.data
  {
    var b: nat :| InBlock(ph, b, a, n);
    forall i | a <= i < a + n ensures i in ph.data {
      assert InBlock(ph, b, i, 1);
    }
  }

  ghost function Bytes(ph: Phys, a: nat, n: nat): (s: seq<byte>)
    requires PhysOk(ph) && Readable(ph, a, n)
    ensures |s| == n && forall i :: 0 <= i < n ==> a + i in ph.data && s[i] == ph.data[a + i]
  {
    ReadableBytes(ph, a, n);
    seq(n, i requires 0 <= i < n => ph.data[a + i])
  }

  /** read_value<uint64_t>: 0 when the eight bytes are not all in one backed block. */
  ghost function Word(ph: Phys, a: nat): (w: nat)
    requires PhysOk(ph)
    ensures w < WORD_RANGE
  {
    if Readable(ph, a, 8) then
      DecodeBound(Bytes(ph, a, 8)); Capacity8();
      Decode(Bytes(ph, a, 8))
    else 0
  }

  /** A new block of zero bytes. */
  ghost function Insert(ph: Phys, p: nat, n: nat): Phys
  {
    ph.(ext := ph.ext[p := n], data := ph.data + Zeros(p, n))
  }

  ghost function Zeros(p: nat, n: nat): (m: map<nat, byte>)
    ensures forall a: nat :: a in m <==> p <= a < p + n
    ensures forall a :: a in m ==> m[a] == 0
  {
    if n == 0 then map[] else Zeros(p, n - 1)[p + n - 1 := 0]
  }

  ghost function Erase(ph: Phys, b: nat): Phys
    requires b in ph.ext
  {
    ph.(ext := ph.ext - {b}, data := map a | a in ph.data && !(b <= a < b + ph.ext[b]) :: ph.data[a])
  }

  /** write_data: nothing happens unless the range lies in one backed block. */
  ghost function Poke(ph: Phys, a: nat, s: seq<byte>): Phys
  {
    if Readable(ph, a, |s|) then 
      ph.(data := map x | x in ph.data :: if a <= x < a + |s| then s[x - a] else ph.data[x])
    else ph
  }

  ghost function PokeWord(ph: Phys, a: nat, w: nat): Phys
  {
    Poke(ph, a, Encode(w, 8))
  }

  /** [p, p + n) is free: above the reserved range, below the end, clear of every block. */
  ghost predicate Gap(ph: Phys, p: nat, n: nat)
  {
    LOW_END <= p && p + n <= ph.range
    && forall b :: b in ph.ext ==> p + n <= b || b + ph.ext[b] <= p
  }

  /** The reference for usable: try every page address in turn, 0 if none is free. */
  ghost function FirstGap(ph: Phys, n: nat, from: nat): (p: nat)
    requires n > 0
    ensures p != 0 ==> Gap(ph, p, n) && (from % PAGE_SIZE == 0 ==> p % PAGE_SIZE == 0)
    decreases ph.range - from
  {
    if ph.range < from + n then 0
    else if from != 0 && Gap(ph, from, n) then from
    else FirstGap(ph, n, from + PAGE_SIZE)
  }

  ghost function Usable(ph: Phys, n: nat): (p: nat)
    requires n > 0
    ensures p != 0 ==> Gap(ph, p, n) && p % PAGE_SIZE == 0
  {
    FirstGap(ph, n, 0)
  }

  /** Usable is the lowest free page-aligned address. */
  lemma {:induction false} FirstGapIsLeast(ph: Phys, n: nat, from: nat, p: nat)
    requires n > 0 && from <= p && (p - from) % PAGE_SIZE == 0 && Gap(ph, p, n)
    ensures FirstGap(ph, n, from) != 0 && FirstGap(ph, n, from) <= p
    decreases ph.range - from
  {
    if from != p && !(from != 0 && Gap(ph, from, n)) {
      assert from + PAGE_SIZE <= p;
      FirstGapIsLeast(ph, n, from + PAGE_SIZE, p);
    }
  }

  /** usable's law: the lowest free page-aligned range, or 0 exactly when there is none. */
  lemma UsableIsLowestGap(ph: Phys, n: nat, r: nat)
    requires n > 0
    ensures r == Usable(ph, n) <==>
      if r == 0 then forall p: nat :: p % PAGE_SIZE == 0 ==> !Gap(ph, p, n)
      else r % PAGE_SIZE == 0 && Gap(ph, r, n) && forall p: nat :: p % PAGE_SIZE == 0 && Gap(ph, p, n) ==> r <= p
  {
    hide Gap;
    var u := Usable(ph, n);
    forall p: nat | p % PAGE_SIZE == 0 && Gap(ph, p, n) ensures u != 0 && u <= p {
      FirstGapIsLeast(ph, n, 0, p);
    }
  }

  lemma InsertValid(ph: Phys, p: nat, n: nat)
    requires PhysOk(ph) && Gap(ph, p, n) && n > 0
    ensures PhysOk(Insert(ph, p, n))
    ensures p !in ph.ext
    ensures Paged(ph) && p % PAGE_SIZE == 0 && n % PAGE_SIZE == 0 ==> Paged(Insert(ph, p, n))
  {
    var ph' := Insert(ph, p, n);
    forall b: nat, a: nat | InBlock(ph', b, a, 1) ensures a in ph'.data {
      if b != p { assert InBlock(ph, b, a, 1); }
    }
  }

  lemma EraseValid(ph: Phys, b: nat)
    requires PhysOk(ph) && b in ph.ext
    ensures PhysOk(Erase(ph, b))
    ensures Paged(ph) ==> Paged(Erase(ph, b))
  {
    var ph' := Erase(ph, b);
    forall c: nat, a: nat | InBlock(ph', c, a, 1) ensures a in ph'.data {
      assert InBlock(ph, c, a, 1);
    }
  }

  lemma PokeValid(ph: Phys, a: nat, s: seq<byte>)
    requires PhysOk(ph)
    ensures PhysOk(Poke(ph, a, s)) && Poke(ph, a, s).ext == ph.ext && Poke(ph, a, s).range == ph.range
    ensures Poke(ph, a, s).data.Keys == ph.data.Keys
    ensures Paged(ph) ==> Paged(Poke(ph, a, s))
  {
    var ph' := Poke(ph, a, s);
    forall b: nat, x: nat | InBlock(ph', b, x, 1) ensures x in ph'.data {
      assert InBlock(ph, b, x, 1);
    }
  }

  /** Two memories that agree on eight readable bytes read the same word there. */
  lemma WordAgrees(ph: Phys, ph': Phys, a: nat)
    requires PhysOk(ph) && PhysOk(ph')
    requires Readable(ph, a, 8) <==> Readable(ph', a, 8)
    requires Readable(ph, a, 8) ==>
      forall i :: a <= i < a + 8 ==> i in ph.data && i in ph'.data && ph.data[i] == ph'.data[i]
    ensures Word(ph, a) == Word(ph', a)
  {
    if Readable(ph, a, 8) {
      assert Bytes(ph, a, 8) == Bytes(ph', a, 8);
    }
  }

  /** A fresh block reads as 0, which is what unbacked addresses read as. */
  lemma WordInsert(ph: Phys, p: nat, n: nat, a: nat)
    requires PhysOk(ph) && Gap(ph, p, n) && n > 0 && PhysOk(Insert(ph, p, n))
    ensures Word(Insert(ph, p, n), a) == Word(ph, a)
  {
    hide PhysOk, Word;
    var ph' := Insert(ph, p, n);
    if Readable(ph, a, 8) {
      var b: nat :| InBlock(ph, b, a, 8);
      InsertReadable(ph, p, n, b, a);
      WordAgrees(ph, ph', a);
    } else if Readable(ph', a, 8) {
      var b: nat :| InBlock(ph', b, a, 8);
      assert b == p by { assert !InBlock(ph, b, a, 8); }
      FreshReadsZero(ph, p, n, a);
    } else {
      WordAgrees(ph, ph', a);
    }
  }

  lemma InsertReadable(ph: Phys, p: nat, n: nat, b: nat, a: nat)
    requires PhysOk(ph) && Gap(ph, p, n) && n > 0 && InBlock(ph, b, a, 8)
    ensures var ph' := Insert(ph, p, n);
      InBlock(ph', b, a, 8) && forall i :: a <= i < a + 8 ==> i in ph.data && i in ph'.data && ph.data[i] == ph'.data[i]
  {
    hide PhysOk;
    ReadableBytes(ph, a, 8);
  }

  lemma FreshReadsZero(ph: Phys, p: nat, n: nat, a: nat)
    requires PhysOk(ph) && PhysOk(Insert(ph, p, n)) && InBlock(Insert(ph, p, n), p, a, 8)
    requires Insert(ph, p, n).ext[p] == n && !Readable(ph, a, 8)
    ensures Word(Insert(ph, p, n), a) == 0 == Word(ph, a)
  {
    hide PhysOk;
    DecodeZeros(Bytes(Insert(ph, p, n), a, 8));
  }

  lemma WordErase(ph: Phys, b: nat, a: nat)
    requires PhysOk(ph) && b in ph.ext && PhysOk(Erase(ph, b))
    ensures Word(Erase(ph, b), a) == if InBlock(ph, b, a, 8) then 0 else Word(ph, a)
  {
    var ph' := Erase(ph, b);
    if Readable(ph', a, 8) {
      var c: nat :| InBlock(ph', c, a, 8);
      assert InBlock(ph, c, a, 8);
      ReadableBytes(ph', a, 8);
      WordAgrees(ph, ph', a);
    } else if Readable(ph, a, 8) {
      var c: nat :| InBlock(ph, c, a, 8);
      assert c == b by { assert !InBlock(ph', c, a, 8); }
    }
  }

  lemma ReadableFrame(ph: Phys, ph': Phys, a: nat, n: nat)
    requires ph'.ext == ph.ext
    ensures Readable(ph, a, n) <==> Readable(ph', a, n)
  {
    if Readable(ph, a, n) {
      var b: nat :| InBlock(ph, b, a, n);
      assert InBlock(ph', b, a, n);
    }
    if Readable(ph', a, n) {
      var b: nat :| InBlock(ph', b, a, n);
      assert InBlock(ph, b, a, n);
    }
  }

  /** Writing bytes elsewhere leaves a word alone. */
  lemma WordPokeApart(ph: Phys, a: nat, s: seq<byte>, x: nat)
    requires PhysOk(ph) && PhysOk(Poke(ph, a, s))
    requires x + 8 <= a || a + |s| <= x
    ensures Word(Poke(ph, a, s), x) == Word(ph, x)
  {
    var ph' := Poke(ph, a, s);
    ReadableFrame(ph, ph', x, 8);
    if Readable(ph, x, 8) {
      ReadableBytes(ph, x, 8);
      WordAgrees(ph, ph', x);
    }
  }

  lemma WordPokeHere(ph: Phys, a: nat, w: nat)
    requires PhysOk(ph) && PhysOk(PokeWord(ph, a, w)) && Readable(ph, a, 8) && w < WORD_RANGE
    ensures Word(PokeWord(ph, a, w), a) == w
  {
    var ph' := PokeWord(ph, a, w);
    ReadableFrame(ph, ph', a, 8);
    assert Bytes(ph', a, 8) == Encode(w, 8);
    Capacity8();
    DecodeEncode(w, 8);
  }
}
