/** How each elementary change of memory keeps the tables a forest, and what it does to translations. */
module ForestChanges {
  import opened Sv39
  import opened Phys
  import opened PageTable
  import Words

  ghost function SetEntry(ph: Phys, t: nat, i: nat, w: nat): Phys
  {
    PokeWord(ph, t + 8 * i, w)
  }

  /** Every byte of the data blocks of ph is still there, unchanged. */
  ghost predicate KeepsData(ph: Phys, ph': Phys, k: map<nat, Kind>)
  {
    forall b: nat, a: nat :: b in k && k[b].Data? && InBlock(ph, b, a, 1) ==>
      a in ph.data && InBlock(ph', b, a, 1) && a in ph'.data && ph'.data[a] == ph.data[a]
  }

  ghost predicate SameTranslations(ph: Phys, ph': Phys, k: map<nat, Kind>)
    requires PhysOk(ph) && PhysOk(ph')
  {
    forall r, q: nat :: IsRoot(k, r) && q < Width(3) ==> Translate(ph', r, q) == Translate(ph, r, q)
  }

  ghost predicate Grows(ph: Phys, k: map<nat, Kind>, ph': Phys, k': map<nat, Kind>)
  {
    && (forall b :: b in k ==> b in k' && k'[b] == k[b])
    && (forall b :: b in ph.ext ==> b in ph'.ext && ph'.ext[b] == ph.ext[b])
  }

  lemma EntryOkGrows(ph: Phys, k: map<nat, Kind>, ph': Phys, k': map<nat, Kind>, r: nat, n: nat, q: nat, w: nat)
    requires Grows(ph, k, ph', k') && EntryOk(ph, k, r, n, q, w)
    ensures EntryOk(ph', k', r, n, q, w)
  {
    hide PTE2PA, SetPTE;
    var pa := PTE2PA(w);
    if n == 2 && w != 0 {
      var p: nat :| LeafInto(ph, k, r, q, pa, p);
      assert LeafInto(ph', k', r, q, pa, p);
    }
  }

  lemma EntryReadable(ph: Phys, k: map<nat, Kind>, t: nat, i: nat)
    requires Forest(ph, k) && IsTable(k, t) && i < 512
    ensures Readable(ph, t + 8 * i, 8)
  {
    hide Walk, EntryOk, Entry;
    TableFacts(ph, k, t);
    assert InBlock(ph, t, t + 8 * i, 8);
  }

  lemma EntryInsert(ph: Phys, p: nat, n: nat)
    requires PhysOk(ph) && Gap(ph, p, n) && n > 0 && PhysOk(Insert(ph, p, n))
    ensures forall t: nat, i: nat :: Entry(Insert(ph, p, n), t, i) == Entry(ph, t, i)
  {
    hide PhysOk, Insert, Gap;
    forall t: nat, i: nat ensures Entry(Insert(ph, p, n), t, i) == Entry(ph, t, i) {
      WordInsert(ph, p, n, t + 8 * i);
    }
  }

  /** A page that is free reads as a table without entries. */
  lemma FreePageBarren(ph: Phys, c: nat)
    requires PhysOk(ph) && Gap(ph, c, PAGE_SIZE)
    ensures Barren(ph, c)
  {
  }

  lemma EntrySet(ph: Phys, t: nat, i: nat, w: nat)
    requires PhysOk(ph) && t % PAGE_SIZE == 0 && i < 512 && Readable(ph, t + 8 * i, 8) && w < WORD_RANGE
    ensures PhysOk(SetEntry(ph, t, i, w)) && SetEntry(ph, t, i, w).ext == ph.ext
    ensures Paged(ph) ==> Paged(SetEntry(ph, t, i, w))
    ensures Entry(SetEntry(ph, t, i, w), t, i) == w
    ensures forall b: nat, j: nat :: b % PAGE_SIZE == 0 && j < 512 && (b != t || j != i) ==>
      Entry(SetEntry(ph, t, i, w), b, j) == Entry(ph, b, j)
  {
    hide PhysOk, Readable, Poke, Word;
    var s := Words.Encode(w, 8);
    PokeValid(ph, t + 8 * i, s);
    WordPokeHere(ph, t + 8 * i, w);
    forall b: nat, j: nat | b % PAGE_SIZE == 0 && j < 512 && (b != t || j != i)
      ensures Entry(SetEntry(ph, t, i, w), b, j) == Entry(ph, b, j)
    {
      EntriesApart(t, i, b, j);
      WordPokeApart(ph, t + 8 * i, s, b + 8 * j);
    }
  }

  lemma EntriesApart(t: nat, i: nat, b: nat, j: nat)
    requires t % PAGE_SIZE == 0 && b % PAGE_SIZE == 0 && i < 512 && j < 512 && (b != t || j != i)
    ensures b + 8 * j + 8 <= t + 8 * i || t + 8 * i + 8 <= b + 8 * j
  {
  }

  /** The effect of SetEntry on walks, for an entry that leads to no leaf before or after. */
  lemma SetEntryWalks(ph: Phys, ph': Phys, k: map<nat, Kind>, t: nat, i: nat)
    requires PhysOk(ph) && Forest(ph, k) && PhysOk(ph') && IsTable(k, t) && i < 512 && SameEntriesBut(ph, ph', k, t, i)
    requires k[t].level < 2 ==>
      Barren(ph, PTE2PA(Entry(ph, t, i))) && Barren(ph', PTE2PA(Entry(ph', t, i)))
    ensures forall r: nat, n: nat, q: nat :: IsRoot(k, r) && n <= 3 && q < Width(n) ==>
      Walk(ph', r, n, q) ==
        if Table(r, n, q) == NodeAt(k, t, i) then PTE2PA(Entry(ph', t, i)) else Walk(ph, r, n, q)
  {
    hide *;
    forall r: nat, n: nat, q: nat | IsRoot(k, r) && n <= 3 && q < Width(n)
      ensures Walk(ph', r, n, q) ==
        if Table(r, n, q) == NodeAt(k, t, i) then PTE2PA(Entry(ph', t, i)) else Walk(ph, r, n, q)
    {
      WalkAfter(ph, ph', k, t, i, r, n, q);
    }
  }

  /** A new table page at c, pointed to by entry i of table t. */
  ghost function Link(ph: Phys, t: nat, i: nat, c: nat): Phys
  {
    SetEntry(Insert(ph, c, PAGE_SIZE), t, i, SetPTE(c, V))
  }

  lemma LinkEffect(ph: Phys, k: map<nat, Kind>, t: nat, i: nat, c: nat)
    requires PhysOk(ph) && Forest(ph, k) && IsTable(k, t) && i < 512 && Entry(ph, t, i) == 0
    requires Gap(ph, c, PAGE_SIZE) && c % PAGE_SIZE == 0
    ensures var ph' := Link(ph, t, i, c);
      && PhysOk(ph') && Paged(ph') && ph'.ext == ph.ext[c := PAGE_SIZE] && c !in k && c !in ph.ext && c != t
      && SameEntriesBut(ph, ph', k, t, i) && Barren(ph, 0) && Barren(ph', c)
      && Entry(ph', t, i) == SetPTE(c, V) && PTE2PA(SetPTE(c, V)) == c
  {
    hide Walk, EntryOk, Entry, Gap, PTE2PA, SetPTE, SetEntry, Insert, PhysOk, Paged, Readable;
    var ph1 := Insert(ph, c, PAGE_SIZE);
    var ph' := Link(ph, t, i, c);
    TableFacts(ph, k, t);
    InsertValid(ph, c, PAGE_SIZE);
    FreePage(ph, k, c, t, i);
    EntryInsert(ph, c, PAGE_SIZE);
    FreePageBarren(ph, c);
    PteRoundTrip(c, V);
    EntrySet(ph1, t, i, SetPTE(c, V));
    forall b: nat, j: nat | IsTable(k, b) && j < 512 && (b != t || j != i)
      ensures Entry(ph', b, j) == Entry(ph, b, j)
    {
      TableFacts(ph, k, b);
    }
    forall j | 0 <= j < 512 ensures Entry(ph, 0, j) == 0 && Entry(ph', c, j) == 0 {
      LowReadsZero(ph, j);
    }
  }

  lemma FreePage(ph: Phys, k: map<nat, Kind>, c: nat, t: nat, i: nat)
    requires PhysOk(ph) && Forest(ph, k) && IsTable(k, t) && i < 512 && Gap(ph, c, PAGE_SIZE)
    ensures c !in ph.ext && c !in k && c != t && Readable(Insert(ph, c, PAGE_SIZE), t + 8 * i, 8)
    ensures Insert(ph, c, PAGE_SIZE).ext == ph.ext[c := PAGE_SIZE] && Paged(ph) && c < MAX_PHY_RANGE
  {
    hide Walk, EntryOk, Entry, PhysOk;
    TableFacts(ph, k, t);
    InsertValid(ph, c, PAGE_SIZE);
    assert InBlock(Insert(ph, c, PAGE_SIZE), t, t + 8 * i, 8);
  }

  lemma LinkForest(ph: Phys, k: map<nat, Kind>, t: nat, i: nat, c: nat)
    requires PhysOk(ph) && Forest(ph, k) && IsTable(k, t) && k[t].level < 2 && i < 512 && Entry(ph, t, i) == 0
    requires Gap(ph, c, PAGE_SIZE) && c % PAGE_SIZE == 0
    ensures var ph', k' := Link(ph, t, i, c), k[c := NodeAt(k, t, i)];
      && PhysOk(ph') && Forest(ph', k') && SameTranslations(ph, ph', k) && c !in k && Grows(ph, k, ph', k')
      && Entry(ph', t, i) == SetPTE(c, V) && PTE2PA(SetPTE(c, V)) == c
      && forall b: nat, j: nat :: IsTable(k, b) && j < 512 && (b != t || j != i) ==> Entry(ph', b, j) == Entry(ph, b, j)
  {
    hide Walk, EntryOk, Entry, Gap, PTE2PA, SetPTE, Link, PhysOk, Paged, Barren, Forest, SameTranslations, Grows,
         TableOk, Width, SameEntriesBut;
    var ph', k' := Link(ph, t, i, c), k[c := NodeAt(k, t, i)];
    LinkEffect(ph, k, t, i, c);
    ZeroEntry();
    ForestDomain(ph, k);
    OneEntryChanged(ph, ph', k, t, i);
    SetEntryWalks(ph, ph', k, t, i);
    LinkTables(ph, k, t, i, c, ph', k');
    ForestIntro(ph', k');
    WalksGiveTranslations(ph, ph', k, t, i);
  }

  lemma ForestDomain(ph: Phys, k: map<nat, Kind>)
    requires Forest(ph, k)
    ensures k.Keys == ph.ext.Keys
  {
    hide PhysOk, Paged, TableOk;
  }

  lemma OneEntryChanged(ph: Phys, ph': Phys, k: map<nat, Kind>, t: nat, i: nat)
    requires PhysOk(ph) && PhysOk(ph') && SameEntriesBut(ph, ph', k, t, i)
    ensures forall b: nat, j: nat :: IsTable(k, b) && j < 512 && (b != t || j != i) ==>
      Entry(ph', b, j) == Entry(ph, b, j)
  {
    hide PhysOk, Entry;
  }

  lemma WalksGiveTranslations(ph: Phys, ph': Phys, k: map<nat, Kind>, t: nat, i: nat)
    requires PhysOk(ph) && PhysOk(ph') && IsTable(k, t) && k[t].level < 2
    requires forall r: nat, n: nat, q: nat :: IsRoot(k, r) && n <= 3 && q < Width(n) ==>
      Walk(ph', r, n, q) == if Table(r, n, q) == NodeAt(k, t, i) then PTE2PA(Entry(ph', t, i)) else Walk(ph, r, n, q)
    ensures SameTranslations(ph, ph', k)
  {
    hide Walk, Entry, PhysOk, Width;
  }

  lemma ForestIntro(ph: Phys, k: map<nat, Kind>)
    requires PhysOk(ph) && Paged(ph) && k.Keys == ph.ext.Keys
    requires forall b :: IsTable(k, b) ==> TableOk(ph, k, b, k[b].root, k[b].level, k[b].prefix)
    ensures Forest(ph, k)
  {
  }

  lemma LinkTables(ph: Phys, k: map<nat, Kind>, t: nat, i: nat, c: nat, ph': Phys, k': map<nat, Kind>)
    requires PhysOk(ph) && Forest(ph, k) && IsTable(k, t) && k[t].level < 2 && i < 512 && Entry(ph, t, i) == 0
    requires PhysOk(ph') && c !in k && c !in ph.ext && c != t
    requires ph'.ext == ph.ext[c := PAGE_SIZE] && k' == k[c := NodeAt(k, t, i)]
    requires SameEntriesBut(ph, ph', k, t, i) && Barren(ph', c)
    requires Entry(ph', t, i) == SetPTE(c, V) && PTE2PA(SetPTE(c, V)) == c
    requires forall r: nat, n: nat, q: nat :: IsRoot(k, r) && n <= 3 && q < Width(n) ==>
      Walk(ph', r, n, q) == if Table(r, n, q) == NodeAt(k, t, i) then c else Walk(ph, r, n, q)
    ensures forall b :: IsTable(k', b) ==> TableOk(ph', k', b, k'[b].root, k'[b].level, k'[b].prefix)
    ensures Grows(ph, k, ph', k')
  {
    hide Walk, Entry, PTE2PA, SetPTE, PhysOk, Forest, EntryOk;
    TableFacts(ph, k, t);
    NodeParent(ph, k, t, i);
    ZeroEntry();
    forall b | IsTable(k', b) ensures TableOk(ph', k', b, k'[b].root, k'[b].level, k'[b].prefix) {
      var Table(r, n, q) := k'[b];
      if b == c {
        forall j | 0 <= j < 512 ensures EntryOk(ph', k', r, n, 512 * q + j, Entry(ph', b, j)) {
          ZeroEntryOk(ph', k', r, n, 512 * q + j);
        }
      } else {
        TableFacts(ph, k, b);
        forall j | 0 <= j < 512 ensures EntryOk(ph', k', r, n, 512 * q + j, Entry(ph', b, j)) {
          if b == t && j == i {
            ChildEntryOk(ph', k', r, n, 512 * q + j, c);
          } else {
            EntryOkGrows(ph, k, ph', k', r, n, 512 * q + j, Entry(ph, b, j));
          }
        }
      }
    }
  }

  lemma ZeroEntryOk(ph: Phys, k: map<nat, Kind>, r: nat, n: nat, q: nat)
    ensures EntryOk(ph, k, r, n, q, 0)
  {
  }

  lemma ChildEntryOk(ph: Phys, k: map<nat, Kind>, r: nat, n: nat, q: nat, c: nat)
    requires n < 2 && c in k && k[c] == Table(r, n + 1, q) && PTE2PA(SetPTE(c, V)) == c
    ensures EntryOk(ph, k, r, n, q, SetPTE(c, V))
  {
  }

  ghost predicate SameEntries(ph: Phys, ph': Phys, k: map<nat, Kind>)
    requires PhysOk(ph) && PhysOk(ph')
  {
    forall b: nat, j: nat :: IsTable(k, b) && j < 512 ==> Entry(ph', b, j) == Entry(ph, b, j)
  }

  /** Walks read nothing but tables and the reserved range. */
  lemma {:induction false} WalkFrame(ph: Phys, ph': Phys, k: map<nat, Kind>, r: nat, n: nat, q: nat)
    requires PhysOk(ph) && Forest(ph, k) && PhysOk(ph') && SameEntries(ph, ph', k)
    requires IsRoot(k, r) && n <= 3 && q < Width(n)
    ensures Walk(ph', r, n, q) == Walk(ph, r, n, q)
    decreases n
  {
    hide PTE2PA, Entry, PhysOk, Forest;
    if n > 0 {
      WalkFrame(ph, ph', k, r, n - 1, q / 512);
      WalkFindsTable(ph, k, r, n - 1, q / 512);
      LowReadsZero(ph, q % 512);
      LowReadsZero(ph', q % 512);
    }
  }

  lemma WalksFrame(ph: Phys, ph': Phys, k: map<nat, Kind>)
    requires PhysOk(ph) && Forest(ph, k) && PhysOk(ph') && SameEntries(ph, ph', k)
    ensures forall r: nat, n: nat, q: nat :: IsRoot(k, r) && n <= 3 && q < Width(n) ==>
      Walk(ph', r, n, q) == Walk(ph, r, n, q)
    ensures SameTranslations(ph, ph', k)
  {
    hide PTE2PA, Entry, PhysOk, Forest, Walk, Width, SameEntries;
    forall r: nat, n: nat, q: nat | IsRoot(k, r) && n <= 3 && q < Width(n)
      ensures Walk(ph', r, n, q) == Walk(ph, r, n, q)
    {
      WalkFrame(ph, ph', k, r, n, q);
    }
  }

  /** A forest survives whatever leaves its tables alone and removes no block. */
  lemma ForestFrame(ph: Phys, k: map<nat, Kind>, ph': Phys, k': map<nat, Kind>)
    requires PhysOk(ph) && Forest(ph, k) && PhysOk(ph') && SameEntries(ph, ph', k) && Grows(ph, k, ph', k')
    ensures SameTranslations(ph, ph', k)
    ensures forall b :: IsTable(k, b) ==> TableOk(ph', k', b, k[b].root, k[b].level, k[b].prefix)
  {
    hide PTE2PA, SetPTE, Entry, PhysOk, Forest, Walk, Width, EntryOk;
    WalksFrame(ph, ph', k);
    forall b | IsTable(k, b) ensures TableOk(ph', k', b, k[b].root, k[b].level, k[b].prefix) {
      TableFacts(ph, k, b);
      var Table(r, n, q) := k[b];
      forall j | 0 <= j < 512 ensures EntryOk(ph', k', r, n, 512 * q + j, Entry(ph', b, j)) {
        EntryOkGrows(ph, k, ph', k', r, n, 512 * q + j, Entry(ph, b, j));
      }
    }
  }

  /** A new block, for data or as the root of a new address space. */
  lemma InsertForest(ph: Phys, k: map<nat, Kind>, p: nat, n: nat, kind: Kind)
    requires PhysOk(ph) && Forest(ph, k) && Gap(ph, p, n) && p % PAGE_SIZE == 0 && n % PAGE_SIZE == 0 && n > 0
    requires kind.Data? || (kind == Table(p, 0, 0) && n == PAGE_SIZE)
    ensures var ph', k' := Insert(ph, p, n), k[p := kind];
      && p !in k && PhysOk(ph') && Forest(ph', k') && SameTranslations(ph, ph', k) && Grows(ph, k, ph', k')
      && (kind.Table? ==> Barren(ph', p))
  {
    hide *;
    var ph', k' := Insert(ph, p, n), k[p := kind];
    InsertEffect(ph, k, p, n, kind);
    ForestFrame(ph, k, ph', k');
    InsertTables(ph, k, p, n, kind);
    ForestIntro(ph', k');
  }

  lemma InsertEffect(ph: Phys, k: map<nat, Kind>, p: nat, n: nat, kind: Kind)
    requires PhysOk(ph) && Forest(ph, k) && Gap(ph, p, n) && p % PAGE_SIZE == 0 && n % PAGE_SIZE == 0 && n > 0
    ensures var ph', k' := Insert(ph, p, n), k[p := kind];
      && p !in k && PhysOk(ph') && Paged(ph') && k'.Keys == ph'.ext.Keys && Grows(ph, k, ph', k')
      && InBlock(ph', p, p, n) && ph'.ext[p] == n && SameEntries(ph, ph', k) && (n == PAGE_SIZE ==> Barren(ph', p))
  {
    hide Entry, PhysOk, Walk, TableOk, Paged, Gap, Insert, Barren;
    ForestIsPaged(ph, k);
    ForestDomain(ph, k);
    InsertValid(ph, p, n);
    EntryInsert(ph, p, n);
    InsertGrows(ph, k, p, n, kind);
    if n == PAGE_SIZE {
      FreePageBarren(ph, p);
      InsertBarren(ph, p);
    }
  }

  lemma InsertGrows(ph: Phys, k: map<nat, Kind>, p: nat, n: nat, kind: Kind)
    requires k.Keys == ph.ext.Keys && p !in ph.ext && n > 0
    ensures var ph', k' := Insert(ph, p, n), k[p := kind];
      p !in k && k'.Keys == ph'.ext.Keys && Grows(ph, k, ph', k') && InBlock(ph', p, p, n) && ph'.ext[p] == n
  {
    assert p !in k.Keys;
  }

  lemma InsertBarren(ph: Phys, p: nat)
    requires PhysOk(ph) && PhysOk(Insert(ph, p, PAGE_SIZE)) && Barren(ph, p)
    requires forall t: nat, i: nat :: Entry(Insert(ph, p, PAGE_SIZE), t, i) == Entry(ph, t, i)
    ensures Barren(Insert(ph, p, PAGE_SIZE), p)
  {
    hide PhysOk, Entry, Insert;
  }

  lemma ForestIsPaged(ph: Phys, k: map<nat, Kind>)
    requires Forest(ph, k)
    ensures Paged(ph)
  {
    hide PhysOk, Paged, TableOk;
  }

  lemma InsertTables(ph: Phys, k: map<nat, Kind>, p: nat, n: nat, kind: Kind)
    requires var ph', k' := Insert(ph, p, n), k[p := kind];
      && PhysOk(ph') && (kind.Data? || (kind == Table(p, 0, 0) && n == PAGE_SIZE && Barren(ph', p)))
      && InBlock(ph', p, p, n) && ph'.ext[p] == n
      && forall b :: IsTable(k, b) ==> TableOk(ph', k', b, k[b].root, k[b].level, k[b].prefix)
    ensures var ph', k' := Insert(ph, p, n), k[p := kind];
      forall b :: IsTable(k', b) ==> TableOk(ph', k', b, k'[b].root, k'[b].level, k'[b].prefix)
  {
  }

  /** Filling an empty last-level entry maps one page and nothing else. */
  lemma LeafForest(ph: Phys, k: map<nat, Kind>, t: nat, i: nat, pa: nat, p: nat)
    requires PhysOk(ph) && Forest(ph, k) && IsTable(k, t) && k[t].level == 2 && i < 512 && Entry(ph, t, i) == 0
    requires pa % PAGE_SIZE == 0 && pa < MAX_PHY_RANGE && LeafInto(ph, k, k[t].root, 512 * k[t].prefix + i, pa, p)
    ensures var ph' := SetEntry(ph, t, i, SetPTE(pa, RWXV));
      && PhysOk(ph') && Forest(ph', k) && ph'.ext == ph.ext && Entry(ph', t, i) == SetPTE(pa, RWXV)
      && forall r, q: nat :: IsRoot(k, r) && q < Width(3) ==>
        Translate(ph', r, q) == if r == k[t].root && q == 512 * k[t].prefix + i then pa else Translate(ph, r, q)
  {
    hide *;
    LeafWord(pa);
    var w := SetPTE(pa, RWXV);
    var ph' := SetEntry(ph, t, i, w);
    SetEntryEffect(ph, k, t, i, w);
    SetEntryWalks(ph, ph', k, t, i);
    LeafTables(ph, k, t, i, pa, p, ph');
    ForestIntro(ph', k);
    LeafTranslations(ph, ph', k, t, i);
  }

  lemma LeafWord(pa: nat)
    requires pa % PAGE_SIZE == 0 && pa < MAX_PHY_RANGE
    ensures PTE2PA(SetPTE(pa, RWXV)) == pa && SetPTE(pa, RWXV) < WORD_RANGE
  {
    PteRoundTrip(pa, RWXV);
  }

  lemma SetEntryEffect(ph: Phys, k: map<nat, Kind>, t: nat, i: nat, w: nat)
    requires PhysOk(ph) && Forest(ph, k) && IsTable(k, t) && i < 512 && w < WORD_RANGE
    ensures var ph' := SetEntry(ph, t, i, w);
      && PhysOk(ph') && Paged(ph') && ph'.ext == ph.ext && k.Keys == ph'.ext.Keys
      && Entry(ph', t, i) == w && SameEntriesBut(ph, ph', k, t, i)
  {
    hide Entry, PhysOk, Walk, EntryOk, SetEntry, Readable, InBlock, Paged;
    TableFacts(ph, k, t);
    EntryReadable(ph, k, t, i);
    EntrySet(ph, t, i, w);
    forall b: nat, j: nat | IsTable(k, b) && j < 512 && (b != t || j != i)
      ensures Entry(SetEntry(ph, t, i, w), b, j) == Entry(ph, b, j)
    {
      TableFacts(ph, k, b);
    }
  }

  lemma LeafTranslations(ph: Phys, ph': Phys, k: map<nat, Kind>, t: nat, i: nat)
    requires PhysOk(ph) && PhysOk(ph') && IsTable(k, t) && k[t].level == 2
    requires forall r: nat, n: nat, q: nat :: IsRoot(k, r) && n <= 3 && q < Width(n) ==>
      Walk(ph', r, n, q) == if Table(r, n, q) == NodeAt(k, t, i) then PTE2PA(Entry(ph', t, i)) else Walk(ph, r, n, q)
    ensures forall r, q: nat :: IsRoot(k, r) && q < Width(3) ==>
      Translate(ph', r, q) ==
        if r == k[t].root && q == 512 * k[t].prefix + i then PTE2PA(Entry(ph', t, i)) else Translate(ph, r, q)
  {
    hide Walk, Entry, PhysOk, Width, PTE2PA;
  }

  lemma LeafTables(ph: Phys, k: map<nat, Kind>, t: nat, i: nat, pa: nat, p: nat, ph': Phys)
    requires PhysOk(ph) && Forest(ph, k) && IsTable(k, t) && k[t].level == 2 && i < 512
    requires LeafInto(ph, k, k[t].root, 512 * k[t].prefix + i, pa, p)
    requires PhysOk(ph') && ph'.ext == ph.ext && SameEntriesBut(ph, ph', k, t, i)
    requires Entry(ph', t, i) == SetPTE(pa, RWXV) && PTE2PA(SetPTE(pa, RWXV)) == pa
    requires forall r: nat, n: nat, q: nat :: IsRoot(k, r) && n <= 3 && q < Width(n) ==>
      Walk(ph', r, n, q) == if Table(r, n, q) == NodeAt(k, t, i) then pa else Walk(ph, r, n, q)
    ensures forall b :: IsTable(k, b) ==> TableOk(ph', k, b, k[b].root, k[b].level, k[b].prefix)
  {
    hide PTE2PA, SetPTE, Entry, PhysOk, Walk, EntryOk, Forest, LeafInto;
    assert Grows(ph, k, ph', k);
    forall b | IsTable(k, b) ensures TableOk(ph', k, b, k[b].root, k[b].level, k[b].prefix) {
      TableFacts(ph, k, b);
      var Table(r, n, q) := k[b];
      forall j | 0 <= j < 512 ensures EntryOk(ph', k, r, n, 512 * q + j, Entry(ph', b, j)) {
        if b == t && j == i {
          LeafEntryOk(ph, ph', k, r, 512 * q + j, pa, p);
        } else {
          EntryOkGrows(ph, k, ph', k, r, n, 512 * q + j, Entry(ph, b, j));
        }
      }
    }
  }

  lemma LeafEntryOk(ph: Phys, ph': Phys, k: map<nat, Kind>, r: nat, q: nat, pa: nat, p: nat)
    requires LeafInto(ph, k, r, q, pa, p) && ph'.ext == ph.ext && PTE2PA(SetPTE(pa, RWXV)) == pa
    ensures EntryOk(ph', k, r, 2, q, SetPTE(pa, RWXV))
  {
    assert LeafInto(ph', k, r, q, pa, p);
  }

  /** Writing inside a data block touches no table. */
  lemma WriteDataForest(ph: Phys, k: map<nat, Kind>, b: nat, a: nat, s: seq<Words.byte>)
    requires PhysOk(ph) && Forest(ph, k) && b in k && k[b].Data? && InBlock(ph, b, a, |s|)
    ensures var ph' := Poke(ph, a, s);
      PhysOk(ph') && Forest(ph', k) && ph'.ext == ph.ext && SameTranslations(ph, ph', k)
  {
    hide *;
    var ph' := Poke(ph, a, s);
    WriteDataEffect(ph, k, b, a, s);
    ForestFrame(ph, k, ph', k);
    ForestIntro(ph', k);
  }

  lemma WriteDataEffect(ph: Phys, k: map<nat, Kind>, b: nat, a: nat, s: seq<Words.byte>)
    requires PhysOk(ph) && Forest(ph, k) && b in k && k[b].Data? && InBlock(ph, b, a, |s|)
    ensures var ph' := Poke(ph, a, s);
      && PhysOk(ph') && Paged(ph') && k.Keys == ph'.ext.Keys && ph'.ext == ph.ext && SameEntries(ph, ph', k)
      && Grows(ph, k, ph', k)
  {
    hide Walk, EntryOk, Poke, Word;
    PokeValid(ph, a, s);
    forall t: nat, j: nat | IsTable(k, t) && j < 512 ensures Entry(Poke(ph, a, s), t, j) == Entry(ph, t, j) {
      WriteDataApart(ph, k, b, a, |s|, t, j);
      WordPokeApart(ph, a, s, t + 8 * j);
    }
  }

  lemma WriteDataApart(ph: Phys, k: map<nat, Kind>, b: nat, a: nat, n: nat, t: nat, j: nat)
    requires PhysOk(ph) && Forest(ph, k) && b in k && k[b].Data? && InBlock(ph, b, a, n) && IsTable(k, t) && j < 512
    ensures t + 8 * j + 8 <= a || a + n <= t + 8 * j
  {
    hide Walk, EntryOk, Entry;
  }

  /** The empty table c goes and entry i of its parent t is cleared. */
  ghost function Unlink(ph: Phys, t: nat, i: nat, c: nat): Phys
    requires c in ph.ext
  {
    SetEntry(Erase(ph, c), t, i, 0)
  }

  lemma EraseBarren(ph: Phys, c: nat)
    requires PhysOk(ph) && c in ph.ext && ph.ext[c] == PAGE_SIZE && c % PAGE_SIZE == 0 && Barren(ph, c)
    ensures PhysOk(Erase(ph, c)) && (Paged(ph) ==> Paged(Erase(ph, c)))
    ensures forall b: nat, j: nat :: b % PAGE_SIZE == 0 && j < 512 ==> Entry(Erase(ph, c), b, j) == Entry(ph, b, j)
  {
    hide PhysOk, Word, Erase, Paged;
    EraseValid(ph, c);
    forall b: nat, j: nat | b % PAGE_SIZE == 0 && j < 512
      ensures Entry(Erase(ph, c), b, j) == Entry(ph, b, j)
    {
      WordErase(ph, c, b + 8 * j);
      if InBlock(ph, c, b + 8 * j, 8) {
        OwnPage(c, b, j);
        assert Entry(ph, c, j) == 0;
      }
    }
  }

  lemma OwnPage(c: nat, b: nat, j: nat)
    requires c % PAGE_SIZE == 0 && b % PAGE_SIZE == 0 && j < 512 && c <= b + 8 * j && b + 8 * j + 8 <= c + PAGE_SIZE
    ensures b == c
  {
  }

  lemma UnlinkEffect(ph: Phys, k: map<nat, Kind>, t: nat, i: nat, c: nat)
    requires PhysOk(ph) && Forest(ph, k) && IsTable(k, t) && i < 512 && IsTable(k, c) && c != t && Barren(ph, c)
    ensures c in ph.ext && var ph' := Unlink(ph, t, i, c);
      && PhysOk(ph') && Paged(ph') && ph'.ext == ph.ext - {c}
      && SameEntriesBut(ph, ph', k, t, i) && Barren(ph', 0) && Entry(ph', t, i) == 0
  {
    hide Entry, PhysOk, Walk, EntryOk, SetEntry, Barren, Paged;
    TableFacts(ph, k, t);
    TableFacts(ph, k, c);
    var ph1 := Erase(ph, c);
    var ph' := Unlink(ph, t, i, c);
    ForestIsPaged(ph, k);
    EraseBarren(ph, c);
    assert InBlock(ph1, t, t + 8 * i, 8);
    EntrySet(ph1, t, i, 0);
    forall b: nat, j: nat | IsTable(k, b) && j < 512 && (b != t || j != i)
      ensures Entry(ph', b, j) == Entry(ph, b, j)
    {
      TableFacts(ph, k, b);
    }
    LowBarren(ph');
  }

  lemma LowBarren(ph: Phys)
    requires PhysOk(ph)
    ensures Barren(ph, 0)
  {
  }

  /** Pruning an empty table keeps the forest and every translation. */
  lemma UnlinkForest(ph: Phys, k: map<nat, Kind>, t: nat, i: nat, c: nat)
    requires PhysOk(ph) && Forest(ph, k) && IsTable(k, t) && k[t].level < 2 && i < 512
    requires IsTable(k, c) && k[c] == NodeAt(k, t, i) && Barren(ph, c)
    ensures c in ph.ext && var ph', k' := Unlink(ph, t, i, c), k - {c};
      && PhysOk(ph') && Forest(ph', k') && SameTranslations(ph, ph', k)
      && SameEntriesBut(ph, ph', k, t, i) && Entry(ph', t, i) == 0
  {
    hide *;
    UnlinkParent(ph, k, t, i, c);
    UnlinkEffect(ph, k, t, i, c);
    var ph', k' := Unlink(ph, t, i, c), k - {c};
    SetEntryWalks(ph, ph', k, t, i);
    UnlinkTables(ph, k, t, i, c, ph', k');
    ForestIntro(ph', k');
    WalksGiveTranslations(ph, ph', k, t, i);
  }

  lemma UnlinkParent(ph: Phys, k: map<nat, Kind>, t: nat, i: nat, c: nat)
    requires PhysOk(ph) && Forest(ph, k) && IsTable(k, t) && i < 512 && IsTable(k, c) && k[c] == NodeAt(k, t, i)
    ensures c != t && PTE2PA(Entry(ph, t, i)) == c && PTE2PA(0) == 0
    ensures k.Keys == ph.ext.Keys && (k - {c}).Keys == ph.ext.Keys - {c}
  {
    hide Walk, Entry, EntryOk;
    TableFacts(ph, k, c);
    NodeParent(ph, k, t, i);
    ZeroEntry();
  }

  lemma UnlinkTables(ph: Phys, k: map<nat, Kind>, t: nat, i: nat, c: nat, ph': Phys, k': map<nat, Kind>)
    requires PhysOk(ph) && Forest(ph, k) && IsTable(k, t) && k[t].level < 2 && i < 512
    requires IsTable(k, c) && k[c] == NodeAt(k, t, i) && c != t && k' == k - {c}
    requires PhysOk(ph') && ph'.ext == ph.ext - {c} && SameEntriesBut(ph, ph', k, t, i) && Entry(ph', t, i) == 0
    requires forall r: nat, n: nat, q: nat :: IsRoot(k, r) && n <= 3 && q < Width(n) ==>
      Walk(ph', r, n, q) == if Table(r, n, q) == NodeAt(k, t, i) then PTE2PA(Entry(ph', t, i)) else Walk(ph, r, n, q)
    ensures forall b :: IsTable(k', b) ==> TableOk(ph', k', b, k'[b].root, k'[b].level, k'[b].prefix)
  {
    hide Walk, Entry, PTE2PA, SetPTE, PhysOk, Forest, EntryOk;
    forall b | IsTable(k', b) ensures TableOk(ph', k', b, k'[b].root, k'[b].level, k'[b].prefix) {
      var Table(r, n, q) := k[b];
      TableFacts(ph, k, b);
      if k[b] == k[c] { TableUnique(ph, k, b, c); }
      forall j | 0 <= j < 512 ensures EntryOk(ph', k', r, n, 512 * q + j, Entry(ph', b, j)) {
        if b == t && j == i {
          ZeroEntryOk(ph', k', r, n, 512 * q + j);
        } else {
          if k[b].root == k[t].root && n == k[t].level && 512 * q + j == 512 * k[t].prefix + i {
            SplitField(q, j);
            SplitField(k[t].prefix, i);
            TableUnique(ph, k, b, t);
          }
          EntryOkWithout(ph, k, ph', c, r, n, 512 * q + j, Entry(ph, b, j));
        }
      }
    }
  }

  lemma EntryOkWithout(ph: Phys, k: map<nat, Kind>, ph': Phys, c: nat, r: nat, n: nat, q: nat, w: nat)
    requires IsTable(k, c) && ph'.ext == ph.ext - {c} && EntryOk(ph, k, r, n, q, w) && k[c] != Table(r, n + 1, q)
    ensures EntryOk(ph', k - {c}, r, n, q, w)
  {
    hide PTE2PA, SetPTE;
    var pa := PTE2PA(w);
    if n == 2 && w != 0 {
      var p: nat :| LeafInto(ph, k, r, q, pa, p);
      assert LeafInto(ph', k - {c}, r, q, pa, p);
    }
  }

  lemma KeepsDataTrans(ph: Phys, ph1: Phys, ph2: Phys, k: map<nat, Kind>, k1: map<nat, Kind>)
    requires KeepsData(ph, ph1, k) && KeepsData(ph1, ph2, k1)
    requires forall b :: b in k && k[b].Data? ==> b in k1 && k1[b].Data?
    ensures KeepsData(ph, ph2, k)
  {
  }

  lemma InsertKeepsData(ph: Phys, k: map<nat, Kind>, p: nat, n: nat)
    requires PhysOk(ph) && Gap(ph, p, n) && n > 0
    ensures KeepsData(ph, Insert(ph, p, n), k)
  {
  }

  lemma SetEntryKeepsData(ph: Phys, k: map<nat, Kind>, t: nat, i: nat, w: nat)
    requires PhysOk(ph) && IsTable(k, t) && InBlock(ph, t, t, PAGE_SIZE) && i < 512
    ensures KeepsData(ph, SetEntry(ph, t, i, w), k)
  {
    hide Readable, Paged;
  }

  lemma EraseKeepsData(ph: Phys, k: map<nat, Kind>, c: nat)
    requires PhysOk(ph) && IsTable(k, c) && c in ph.ext
    ensures KeepsData(ph, Erase(ph, c), k)
  {
  }

  lemma LinkKeepsData(ph: Phys, k: map<nat, Kind>, t: nat, i: nat, c: nat)
    requires PhysOk(ph) && Forest(ph, k) && IsTable(k, t) && i < 512 && Gap(ph, c, PAGE_SIZE)
    ensures KeepsData(ph, Link(ph, t, i, c), k)
  {
    hide Walk, EntryOk, Entry, SetEntry, KeepsData;
    TableFacts(ph, k, t);
    InsertValid(ph, c, PAGE_SIZE);
    InsertKeepsData(ph, k, c, PAGE_SIZE);
    SetEntryKeepsData(Insert(ph, c, PAGE_SIZE), k, t, i, SetPTE(c, V));
    KeepsDataTrans(ph, Insert(ph, c, PAGE_SIZE), Link(ph, t, i, c), k, k);
  }

  lemma UnlinkKeepsData(ph: Phys, k: map<nat, Kind>, t: nat, i: nat, c: nat)
    requires PhysOk(ph) && Forest(ph, k) && IsTable(k, t) && i < 512 && IsTable(k, c) && c != t && c in ph.ext
    ensures KeepsData(ph, Unlink(ph, t, i, c), k)
  {
    hide Walk, EntryOk, Entry, SetEntry, KeepsData;
    TableFacts(ph, k, t);
    EraseValid(ph, c);
    EraseKeepsData(ph, k, c);
    SetEntryKeepsData(Erase(ph, c), k, t, i, 0);
    KeepsDataTrans(ph, Erase(ph, c), Unlink(ph, t, i, c), k, k);
  }

  /** The flags of an entry in use: V alone above the last level; R, W, X and V in it. Nothing else
      is set beside the page number. */
  lemma EntryFlags(ph: Phys, k: map<nat, Kind>, t: nat, i: nat)
    requires PhysOk(ph) && Forest(ph, k) && IsTable(k, t) && i < 512 && Entry(ph, t, i) != 0
    ensures var w := Entry(ph, t, i);
      && w % 1024 == (if k[t].level == 2 then 15 else 1)
      && w == PTE2PA(w) / 4 + w % 1024
  {
    hide Walk, Entry, PhysOk, Forest, EntryOk;
    TableFacts(ph, k, t);
    var w := Entry(ph, t, i);
    assert EntryOk(ph, k, k[t].root, k[t].level, 512 * k[t].prefix + i, w);
    FlagsOfEntry(ph, k, k[t].root, k[t].level, 512 * k[t].prefix + i, w);
  }

  lemma FlagsOfEntry(ph: Phys, k: map<nat, Kind>, r: nat, n: nat, q: nat, w: nat)
    requires EntryOk(ph, k, r, n, q, w) && w != 0 && n <= 2
    ensures w % 1024 == (if n == 2 then 15 else 1) && w == PTE2PA(w) / 4 + w % 1024
  {
    hide PTE2PA, SetPTE, LeafInto;
    WordFields(PTE2PA(w), if n == 2 then 15 else 1);
  }

  lemma WordFields(pa: nat, mods: nat)
    requires pa % PAGE_SIZE == 0 && pa < MAX_PHY_RANGE && mods < 1024
    ensures SetPTE(pa, mods) % 1024 == mods && SetPTE(pa, mods) == pa / 4 + mods
  {
    PageNumber(pa);
    var ppn := pa / 4096;
    QuarterPage(ppn);
    LowFlags(ppn, mods);
  }

  lemma QuarterPage(ppn: nat)
    ensures ppn * 4096 / 4 == ppn * 1024
  {
  }

  lemma LowFlags(ppn: nat, mods: nat)
    requires mods < 1024
    ensures (ppn * 1024 + mods) % 1024 == mods
  {
  }

  /** An entry of a table is in use exactly when its V bit is set, and then it names a page. */
  lemma EntryInUse(ph: Phys, k: map<nat, Kind>, t: nat, i: nat)
    requires PhysOk(ph) && Forest(ph, k) && IsTable(k, t) && i < 512
    ensures var w := Entry(ph, t, i);
      (w % 2 == 1 <==> w != 0) && (w % 2 == 1 <==> PTE2PA(w) != 0)
      && (w != 0 && k[t].level < 2 ==> IsTable(k, PTE2PA(w)) && k[PTE2PA(w)] == NodeAt(k, t, i))
  {
    hide Walk, Entry, PhysOk, Forest;
    TableFacts(ph, k, t);
    ForestDomain(ph, k);
    var w := Entry(ph, t, i);
    ZeroEntry();
    if w != 0 {
      assert EntryOk(ph, k, k[t].root, k[t].level, 512 * k[t].prefix + i, w);
      var pa := PTE2PA(w);
      InUseWord(ph, k, k[t].root, k[t].level, 512 * k[t].prefix + i, w);
    }
  }

  lemma InUseWord(ph: Phys, k: map<nat, Kind>, r: nat, n: nat, q: nat, w: nat)
    requires PhysOk(ph) && k.Keys == ph.ext.Keys && EntryOk(ph, k, r, n, q, w) && w != 0
    ensures w % 2 == 1 && PTE2PA(w) != 0
  {
    hide PTE2PA, SetPTE;
    var pa := PTE2PA(w);
    PteIsOdd(pa, V);
    PteIsOdd(pa, RWXV);
    if n == 2 {
      var p: nat :| LeafInto(ph, k, r, q, pa, p);
    }
  }

  lemma PteIsOdd(pa: nat, mods: nat)
    requires mods % 2 == 1
    ensures SetPTE(pa, mods) % 2 == 1
  {
  }
}
