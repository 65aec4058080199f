/** What clean_task removes: the tables of a task and the data blocks they lead to. */
module TearDown {
  import opened Sv39
  import opened Phys
  import opened PageTable
  import opened ForestChanges
  import opened Allocation
  import opened VirtualMemory
  import opened Pruning

  /** ph is what is left of ph0 when the blocks in s have gone. */
  ghost predicate Residue(ph0: Phys, s: set<nat>, ph: Phys)
  {
    && PhysOk(ph0) && PhysOk(ph) && ph.range == ph0.range && ph.ext == ph0.ext - s
    && forall b: nat, a: nat :: InBlock(ph, b, a, 1) ==> a in ph0.data && a in ph.data && ph.data[a] == ph0.data[a]
  }

  lemma ResidueRefl(ph: Phys)
    requires PhysOk(ph)
    ensures Residue(ph, {}, ph)
  {
  }

  lemma EraseResidue(ph0: Phys, s: set<nat>, ph: Phys, b: nat)
    requires Residue(ph0, s, ph) && b in ph.ext
    ensures b in ph0.ext && b !in s && Residue(ph0, s + {b}, Erase(ph, b))
  {
    hide PhysOk;
    EraseValid(ph, b);
    var ph' := Erase(ph, b);
    assert ph'.ext == ph0.ext - (s + {b});
    forall c: nat, a: nat | InBlock(ph', c, a, 1)
      ensures a in ph0.data && a in ph'.data && ph'.data[a] == ph0.data[a]
    {
      assert InBlock(ph, c, a, 1);
      BlocksDisjoint(ph, b, c, a);
    }
  }

  lemma BlocksDisjoint(ph: Phys, b: nat, c: nat, a: nat)
    requires PhysOk(ph) && b in ph.ext && InBlock(ph, c, a, 1) && b != c
    ensures a in ph.data && !(b <= a < b + ph.ext[b])
  {
  }

  lemma WordResidue(ph0: Phys, s: set<nat>, ph: Phys, b: nat, a: nat)
    requires Residue(ph0, s, ph) && InBlock(ph0, b, a, 8) && b !in s
    ensures Word(ph, a) == Word(ph0, a)
  {
    hide PhysOk;
    assert InBlock(ph, b, a, 8);
    forall x | a <= x < a + 8 ensures x in ph0.data && x in ph.data && ph.data[x] == ph0.data[x] {
      assert InBlock(ph, b, x, 1);
    }
    WordAgrees(ph0, ph, a);
  }

  lemma EntryResidue(ph0: Phys, k: map<nat, Kind>, s: set<nat>, ph: Phys, t: nat, j: nat)
    requires Residue(ph0, s, ph) && Forest(ph0, k) && IsTable(k, t) && t !in s && j < 512
    ensures Entry(ph, t, j) == Entry(ph0, t, j)
  {
    hide PhysOk, Forest, Word, Residue, Walk, EntryOk;
    TableFacts(ph0, k, t);
    assert InBlock(ph0, t, t + 8 * j, 8);
    WordResidue(ph0, s, ph, t, t + 8 * j);
  }

  ghost function Holders(ph: Phys, a: nat): set<nat>
  {
    set b | b in ph.ext && InBlock(ph, b, a, 1)
  }

  /** Everything that the first i entries of a depth-n table lead to. */
  ghost function Owned(ph: Phys, t: nat, n: nat, i: nat): set<nat>
    requires PhysOk(ph) && n <= 2
    decreases 2 - n, i
  {
    if i == 0 then {} else
    Owned(ph, t, n, i - 1) + EntryOwned(ph, t, n, i - 1)
  }

  ghost function EntryOwned(ph: Phys, t: nat, n: nat, j: nat): set<nat>
    requires PhysOk(ph) && n <= 2
    decreases 2 - n, j
  {
    var c := PTE2PA(Entry(ph, t, j));
    if Entry(ph, t, j) % 2 == 0 then {} else
    if n == 2 then Holders(ph, c) else Owned(ph, c, n + 1, 512) + {c}
  }

  /** The blocks of a task: its tables, and the data blocks that some page of it maps into. */
  ghost predicate TaskBlock(ph: Phys, k: map<nat, Kind>, root: nat, b: nat)
    requires PhysOk(ph)
  {
    b in k && k[b].root == root && (k[b].Table? || Reached(ph, root, b))
  }

  ghost predicate Reached(ph: Phys, root: nat, b: nat)
    requires PhysOk(ph)
  {
    exists x: nat :: x < Width(3) && Translate(ph, root, x) != 0 && InBlock(ph, b, Translate(ph, root, x), 1)
  }

  /** A table found under entry j of a table at depth n. */
  ghost predicate Below(node: Kind, r: nat, n: nat, lo: nat, hi: nat)
  {
    node.Table? && node.root == r
    && ((node.level == n + 1 && lo <= node.prefix < hi) || (node.level == n + 2 && lo <= node.prefix / 512 < hi))
  }

  /** Everything in Owned is a table below t or a data block that the task reaches. */
  lemma {:induction false} OwnedAre(ph: Phys, k: map<nat, Kind>, t: nat, i: nat, b: nat)
    requires PhysOk(ph) && Forest(ph, k) && IsTable(k, t) && k[t].level <= 2 && i <= 512
    requires b in Owned(ph, t, k[t].level, i)
    ensures b in ph.ext && b in k && k[b].root == k[t].root
    ensures if k[b].Table? then Below(k[b], k[t].root, k[t].level, 512 * k[t].prefix, 512 * k[t].prefix + i)
            else Reached(ph, k[t].root, b)
    decreases 2 - k[t].level, i
  {
    hide PhysOk, Forest, Entry, PTE2PA, Holders, Reached, EntryOwned, Below;
    if b in Owned(ph, t, k[t].level, i - 1) {
      OwnedAre(ph, k, t, i - 1, b);
      BelowMore(k[b], k[t], i);
    } else {
      EntryOwnedAre(ph, k, t, i - 1, b);
      BelowMore(k[b], k[t], i);
    }
  }

  lemma EntryOwnedAre(ph: Phys, k: map<nat, Kind>, t: nat, j: nat, b: nat)
    requires PhysOk(ph) && Forest(ph, k) && IsTable(k, t) && k[t].level <= 2 && j < 512
    requires b in EntryOwned(ph, t, k[t].level, j)
    ensures b in ph.ext && b in k && k[b].root == k[t].root
    ensures if k[b].Table? then Below(k[b], k[t].root, k[t].level, 512 * k[t].prefix + j, 512 * k[t].prefix + j + 1)
            else Reached(ph, k[t].root, b)
    decreases 2 - k[t].level, j
  {
    hide PhysOk, Forest, Entry, PTE2PA, Holders, Reached, Owned;
    EntryInUse(ph, k, t, j);
    var c := PTE2PA(Entry(ph, t, j));
    if k[t].level == 2 {
      LeafHolder(ph, k, t, j, b);
    } else {
      TableBacked(ph, k, c);
      if b != c {
        OwnedAre(ph, k, c, 512, b);
        if k[b].Table? { TableBacked(ph, k, b); }
        DownTwo(k[c].prefix, k[b]);
      }
    }
  }

  lemma BelowMore(node: Kind, top: Kind, i: nat)
    requires top.Table? && i > 0
    ensures node.Table? && (Below(node, top.root, top.level, 512 * top.prefix, 512 * top.prefix + i - 1)
                            || Below(node, top.root, top.level, 512 * top.prefix + i - 1, 512 * top.prefix + i))
      ==> Below(node, top.root, top.level, 512 * top.prefix, 512 * top.prefix + i)
  {
  }

  lemma DownTwo(p: nat, node: Kind)
    ensures node.Table? && 512 * p <= node.prefix < 512 * p + 512 ==> node.prefix / 512 == p
  {
  }

  lemma TableBacked(ph: Phys, k: map<nat, Kind>, c: nat)
    requires PhysOk(ph) && Forest(ph, k) && IsTable(k, c)
    ensures c in ph.ext && k[c].level <= 2
  {
  }

  lemma LeafHolder(ph: Phys, k: map<nat, Kind>, t: nat, j: nat, b: nat)
    requires PhysOk(ph) && Forest(ph, k) && IsTable(k, t) && k[t].level == 2 && j < 512
    requires Entry(ph, t, j) % 2 == 1 && b in Holders(ph, PTE2PA(Entry(ph, t, j)))
    ensures b in ph.ext && b in k && k[b].Data? && k[b].root == k[t].root && Reached(ph, k[t].root, b)
  {
    hide PhysOk, Forest, Entry, PTE2PA, Walk, EntryOk;
    TableFacts(ph, k, t);
    var r, x := k[t].root, 512 * k[t].prefix + j;
    LeafTranslation(ph, k, t, j);
    EntryInUse(ph, k, t, j);
    LeafBound(k[t].prefix, j);
    TranslateFindsData(ph, k, r, x);
    var p: nat :| LeafInto(ph, k, r, x, Translate(ph, r, x), p);
    OneHolder(ph, p, b, Translate(ph, r, x));
  }

  lemma LeafBound(q: nat, j: nat)
    requires q < Width(2) && j < 512
    ensures 512 * q + j < Width(3)
  {
    assert Width(3) == 512 * Width(2);
  }

  lemma OneHolder(ph: Phys, p: nat, b: nat, a: nat)
    requires PhysOk(ph) && InBlock(ph, p, a, PAGE_SIZE) && InBlock(ph, b, a, 1)
    ensures p == b && Holders(ph, a) == {b}
  {
  }

  lemma {:induction false} OwnedEntry(ph: Phys, t: nat, n: nat, i: nat, j: nat)
    requires PhysOk(ph) && n <= 2 && j < i
    ensures EntryOwned(ph, t, n, j) <= Owned(ph, t, n, i)
    decreases i
  {
    hide PhysOk, Entry, PTE2PA, EntryOwned;
    if j < i - 1 {
      OwnedEntry(ph, t, n, i - 1, j);
    }
  }

  /** The tables that the root owns, level by level. */
  lemma TableIsOwned(ph: Phys, k: map<nat, Kind>, root: nat, b: nat)
    requires PhysOk(ph) && Forest(ph, k) && IsRoot(k, root) && SubTable(k, root, b)
    ensures b in Owned(ph, root, 0, 512)
    ensures k[b].level == 2 ==> Owned(ph, b, 2, 512) <= Owned(ph, root, 0, 512)
  {
    hide PhysOk, Forest, Entry, PTE2PA;
    var t, j := SubTableParent(ph, k, root, b);
    TableBacked(ph, k, b);
    if k[b].level == 1 {
      OwnedEntry(ph, root, 0, 512, j);
      ChildOwned(ph, root, 0, j);
    } else {
      var r, i := SubTableParent(ph, k, root, t);
      OwnedEntry(ph, root, 0, 512, i);
      ChildOwned(ph, root, 0, i);
      OwnedEntry(ph, t, 1, 512, j);
      ChildOwned(ph, t, 1, j);
    }
  }

  lemma ChildOwned(ph: Phys, t: nat, n: nat, j: nat)
    requires PhysOk(ph) && n < 2 && Entry(ph, t, j) % 2 == 1
    ensures EntryOwned(ph, t, n, j) == Owned(ph, PTE2PA(Entry(ph, t, j)), n + 1, 512) + {PTE2PA(Entry(ph, t, j))}
  {
    hide PhysOk, Entry, PTE2PA, Owned;
  }

  lemma LeavesOwned(ph: Phys, t: nat, j: nat)
    requires PhysOk(ph) && Entry(ph, t, j) % 2 == 1
    ensures EntryOwned(ph, t, 2, j) == Holders(ph, PTE2PA(Entry(ph, t, j)))
  {
    hide PhysOk, Entry, PTE2PA, Owned, Holders;
  }

  lemma ReachedIsOwned(ph: Phys, k: map<nat, Kind>, root: nat, b: nat)
    requires PhysOk(ph) && Forest(ph, k) && IsRoot(k, root) && b in ph.ext && Reached(ph, root, b)
    ensures b in Owned(ph, root, 0, 512)
  {
    hide PhysOk, Forest, Entry, PTE2PA, Owned, EntryOwned;
    var x: nat :| x < Width(3) && Translate(ph, root, x) != 0 && InBlock(ph, b, Translate(ph, root, x), 1);
    var t := Walk(ph, root, 2, x / 512);
    PrefixUp(3, x);
    WalkFindsTable(ph, k, root, 2, x / 512);
    ZeroEntry();
    LowReadsZero(ph, x % 512);
    EntryInUse(ph, k, t, x % 512);
    TableIsOwned(ph, k, root, t);
    OwnedEntry(ph, t, 2, 512, x % 512);
    LeavesOwned(ph, t, x % 512);
  }

  /** The blocks that clean_task removes are exactly the task's. */
  lemma OwnedIsTask(ph: Phys, k: map<nat, Kind>, root: nat, b: nat)
    requires PhysOk(ph) && Forest(ph, k) && IsRoot(k, root)
    ensures b in Owned(ph, root, 0, 512) + {root} <==> TaskBlock(ph, k, root, b)
  {
    hide PhysOk, Forest, Entry, PTE2PA, Owned, EntryOwned, Reached;
    if b in Owned(ph, root, 0, 512) {
      OwnedAre(ph, k, root, 512, b);
    }
    if TaskBlock(ph, k, root, b) && b != root {
      ForestKeys(ph, k, b);
      if k[b].Table? {
        OtherTable(ph, k, root, b);
        TableIsOwned(ph, k, root, b);
      } else {
        ReachedIsOwned(ph, k, root, b);
      }
    }
  }

  lemma ForestKeys(ph: Phys, k: map<nat, Kind>, b: nat)
    requires Forest(ph, k)
    ensures b in k <==> b in ph.ext
  {
    hide PhysOk, Paged, TableOk;
  }

  lemma OtherTable(ph: Phys, k: map<nat, Kind>, root: nat, b: nat)
    requires PhysOk(ph) && Forest(ph, k) && IsTable(k, b) && k[b].root == root && b != root
    ensures k[b].level > 0
  {
    hide PhysOk, Forest, Entry, EntryOk;
    TableFacts(ph, k, b);
  }

  /** What is left is a forest: the address spaces of the other tasks, as they were. */
  ghost predicate OthersKept(ph: Phys, k: map<nat, Kind>, ph': Phys, root: nat)
    requires PhysOk(ph) && PhysOk(ph')
  {
    && (forall r, q: nat :: IsRoot(k, r) && r != root && q < Width(3) ==> Translate(ph', r, q) == Translate(ph, r, q))
    && (forall b: nat, a: nat :: b in k && k[b].root != root && InBlock(ph, b, a, 1) ==>
          a in ph.data && InBlock(ph', b, a, 1) && a in ph'.data && ph'.data[a] == ph.data[a])
  }

  /** Walks of another root read only its own tables. */
  lemma {:induction false} WalkOther(ph: Phys, k: map<nat, Kind>, s: set<nat>, ph': Phys, root: nat, r: nat, n: nat,
                                     q: nat)
    requires Residue(ph, s, ph') && Forest(ph, k) && IsRoot(k, r) && r != root && n <= 3 && q < Width(n)
    requires forall b :: b in s ==> b in k && k[b].root == root
    ensures Walk(ph', r, n, q) == Walk(ph, r, n, q)
    decreases n
  {
    hide Forest, Entry, PTE2PA, PhysOk;
    if n > 0 {
      PrefixUp(n, q);
      WalkOther(ph, k, s, ph', root, r, n - 1, q / 512);
      WalkFindsTable(ph, k, r, n - 1, q / 512);
      var x := Walk(ph, r, n - 1, q / 512);
      if x == 0 {
        LowReadsZero(ph, q % 512);
        LowReadsZero(ph', q % 512);
      } else {
        EntryResidue(ph, k, s, ph', x, q % 512);
      }
    }
  }

  lemma OtherTableOk(ph: Phys, k: map<nat, Kind>, s: set<nat>, ph': Phys, root: nat, b: nat)
    requires Residue(ph, s, ph') && Forest(ph, k) && IsTable(k, b) && k[b].root != root
    requires forall c :: c in s ==> c in k && k[c].root == root
    ensures TableOk(ph', k - s, b, k[b].root, k[b].level, k[b].prefix)
  {
    hide Forest, Entry, PhysOk, EntryOk, Walk, Residue;
    TableFacts(ph, k, b);
    var Table(r, n, q) := k[b];
    ResidueExt(ph, s, ph');
    WalkOther(ph, k, s, ph', root, r, n, q);
    forall i | 0 <= i < 512 ensures EntryOk(ph', k - s, r, n, 512 * q + i, Entry(ph', b, i)) {
      EntryResidue(ph, k, s, ph', b, i);
      EntryOkOther(ph, k, s, ph', root, r, n, 512 * q + i, Entry(ph, b, i));
    }
  }

  lemma ResidueExt(ph: Phys, s: set<nat>, ph': Phys)
    requires Residue(ph, s, ph')
    ensures PhysOk(ph) && PhysOk(ph') && ph'.ext == ph.ext - s
  {
  }

  lemma EntryOkOther(ph: Phys, k: map<nat, Kind>, s: set<nat>, ph': Phys, root: nat, r: nat, n: nat, q: nat, w: nat)
    requires ph'.ext == ph.ext - s && r != root && EntryOk(ph, k, r, n, q, w)
    requires forall c :: c in s ==> c in k && k[c].root == root
    ensures EntryOk(ph', k - s, r, n, q, w)
  {
    hide PTE2PA, SetPTE;
    if n == 2 && w != 0 {
      var p: nat :| LeafInto(ph, k, r, q, PTE2PA(w), p);
      assert LeafInto(ph', k - s, r, q, PTE2PA(w), p);
    }
  }

  /** The law of clean_task on memories. */
  lemma TaskGone(ph: Phys, k: map<nat, Kind>, ph': Phys, root: nat, s: set<nat>)
    requires PhysOk(ph) && Forest(ph, k) && IsRoot(k, root) && s == Owned(ph, root, 0, 512) + {root}
    requires Residue(ph, s, ph')
    ensures PhysOk(ph') && Forest(ph', k - s) && OthersKept(ph, k, ph', root)
    ensures forall b :: b in k - s <==> b in k && !TaskBlock(ph, k, root, b)
    ensures forall b :: IsTable(k - s, b) ==> k[b].root != root
  {
    hide Forest, Entry, PhysOk, EntryOk, Walk, Residue, Owned, TaskBlock, OthersKept;
    forall b: nat ensures b in s <==> TaskBlock(ph, k, root, b) {
      OwnedIsTask(ph, k, root, b);
    }
    TaskBlocksOf(ph, k, root, s);
    ResidueExt(ph, s, ph');
    OthersAreKept(ph, k, ph', root, s);
    forall b | IsTable(k - s, b) ensures TableOk(ph', k - s, b, k[b].root, k[b].level, k[b].prefix) {
      TableNotTask(ph, k, root, b);
      OtherTableOk(ph, k, s, ph', root, b);
    }
    ResidueForest(ph, k, s, ph');
  }

  lemma TableNotTask(ph: Phys, k: map<nat, Kind>, root: nat, b: nat)
    requires PhysOk(ph) && IsTable(k, b) && !TaskBlock(ph, k, root, b)
    ensures k[b].root != root
  {
    hide PhysOk, Reached;
  }

  lemma TaskBlocksOf(ph: Phys, k: map<nat, Kind>, root: nat, s: set<nat>)
    requires PhysOk(ph) && forall b: nat :: b in s <==> TaskBlock(ph, k, root, b)
    ensures forall c :: c in s ==> c in k && k[c].root == root
  {
    hide PhysOk, Reached;
  }

  lemma ResidueForest(ph: Phys, k: map<nat, Kind>, s: set<nat>, ph': Phys)
    requires Residue(ph, s, ph') && Forest(ph, k)
    requires forall b :: IsTable(k - s, b) ==> TableOk(ph', k - s, b, k[b].root, k[b].level, k[b].prefix)
    ensures Forest(ph', k - s)
  {
    hide PhysOk, TableOk;
  }

  lemma OthersAreKept(ph: Phys, k: map<nat, Kind>, ph': Phys, root: nat, s: set<nat>)
    requires PhysOk(ph) && PhysOk(ph') && Forest(ph, k) && Residue(ph, s, ph')
    requires forall c :: c in s ==> c in k && k[c].root == root
    ensures OthersKept(ph, k, ph', root)
  {
    hide Forest, Entry, PhysOk, EntryOk, Walk, Width;
    forall r, q: nat | IsRoot(k, r) && r != root && q < Width(3) ensures Translate(ph', r, q) == Translate(ph, r, q) {
      WalkOther(ph, k, s, ph', root, r, 3, q);
    }
    forall b: nat, a: nat | b in k && k[b].root != root && InBlock(ph, b, a, 1)
      ensures a in ph.data && InBlock(ph', b, a, 1) && a in ph'.data && ph'.data[a] == ph.data[a]
    {
      assert InBlock(ph', b, a, 1);
    }
  }

  /** Neither table t nor a child of it has been removed. */
  ghost predicate Clear(ph: Phys, k: map<nat, Kind>, s: set<nat>, t: nat)
    requires PhysOk(ph) && IsTable(k, t)
  {
    && t !in s
    && (k[t].level < 2 ==> forall j: nat :: j < 512 && Entry(ph, t, j) % 2 == 1 ==> PTE2PA(Entry(ph, t, j)) !in s)
  }

  /** Clearing the first i entries of t has touched neither t nor what entry i leads to. */
  lemma StillClear(ph: Phys, k: map<nat, Kind>, s: set<nat>, t: nat, i: nat)
    requires PhysOk(ph) && Forest(ph, k) && IsTable(k, t) && i < 512
    requires Clear(ph, k, s, t) && (k[t].level == 0 ==> s == {})
    ensures k[t].level <= 2 && t !in s + Owned(ph, t, k[t].level, i)
    ensures k[t].level < 2 && Entry(ph, t, i) % 2 == 1 ==> var c := PTE2PA(Entry(ph, t, i));
      IsTable(k, c) && k[c].level == k[t].level + 1 && Clear(ph, k, s + Owned(ph, t, k[t].level, i), c)
  {
    hide PhysOk, Forest, Entry, PTE2PA, Owned, Reached;
    TableBacked(ph, k, t);
    var n := k[t].level;
    if t in Owned(ph, t, n, i) { OwnedAre(ph, k, t, i, t); }
    if n < 2 && Entry(ph, t, i) % 2 == 1 {
      EntryInUse(ph, k, t, i);
      var c := PTE2PA(Entry(ph, t, i));
      if c in Owned(ph, t, n, i) { OwnedAre(ph, k, t, i, c); }
      forall j: nat | k[c].level < 2 && j < 512 && Entry(ph, c, j) % 2 == 1
        ensures PTE2PA(Entry(ph, c, j)) !in s + Owned(ph, t, n, i)
      {
        EntryInUse(ph, k, c, j);
        var g := PTE2PA(Entry(ph, c, j));
        SplitField(k[c].prefix, j);
        if g in Owned(ph, t, n, i) { OwnedAre(ph, k, t, i, g); }
      }
    }
  }

  /** One more entry: unused, a table that has been emptied and removed, or a leaf. */
  lemma OwnedNext(ph: Phys, t: nat, n: nat, i: nat)
    requires PhysOk(ph) && n <= 2
    ensures var c := PTE2PA(Entry(ph, t, i));
      Owned(ph, t, n, i + 1) == Owned(ph, t, n, i) +
        if Entry(ph, t, i) % 2 == 0 then {} else if n == 2 then Holders(ph, c) else Owned(ph, c, n + 1, 512) + {c}
  {
    hide PhysOk, Entry, PTE2PA, Holders;
  }

  /** Removing the block that holds a, if it is still there. */
  lemma HolderErased(ph0: Phys, s: set<nat>, ph: Phys, a: nat, ph': Phys)
    requires Residue(ph0, s, ph)
    requires forall b: nat :: InBlock(ph, b, a, 1) ==> ph' == Erase(ph, b)
    requires (forall b: nat :: !InBlock(ph, b, a, 1)) ==> ph' == ph
    ensures Residue(ph0, s + Holders(ph0, a), ph')
  {
    hide Residue, PhysOk;
    ResidueExt(ph0, s, ph);
    if b: nat :| InBlock(ph, b, a, 1) {
      EraseResidue(ph0, s, ph, b);
      HoldersOne(ph0, b, a);
    } else {
      forall b | b in Holders(ph0, a) ensures b in s {
        assert !InBlock(ph, b, a, 1);
      }
      assert s + Holders(ph0, a) == s;
    }
  }

  lemma HoldersOne(ph: Phys, b: nat, a: nat)
    requires PhysOk(ph) && InBlock(ph, b, a, 1)
    ensures Holders(ph, a) == {b}
  {
  }

  /** A data block that outlives its task belongs to nobody. */
  function Orphan(kind: Kind, root: nat): Kind
  {
    if kind.Data? && kind.root == root then Data(0, kind.va) else kind
  }

  ghost function Orphans(k: map<nat, Kind>, root: nat): map<nat, Kind>
  {
    map b | b in k :: Orphan(k[b], root)
  }

  lemma OrphansForest(ph: Phys, k: map<nat, Kind>, root: nat)
    requires PhysOk(ph) && Forest(ph, k) && forall b :: IsTable(k, b) ==> k[b].root != root
    ensures Forest(ph, Orphans(k, root))
  {
    hide PhysOk, Paged, Entry, Walk, EntryOk, InBlock, Width;
    var k' := Orphans(k, root);
    forall b | IsTable(k', b) ensures TableOk(ph, k', b, k'[b].root, k'[b].level, k'[b].prefix) {
      assert IsTable(k, b);
      forall i | 0 <= i < 512
        ensures EntryOk(ph, k', k[b].root, k[b].level, 512 * k[b].prefix + i, Entry(ph, b, i))
      {
        OrphansEntryOk(ph, k, root, k[b].root, k[b].level, 512 * k[b].prefix + i, Entry(ph, b, i));
      }
    }
  }

  lemma OrphansEntryOk(ph: Phys, k: map<nat, Kind>, root: nat, r: nat, n: nat, q: nat, w: nat)
    requires r != root && EntryOk(ph, k, r, n, q, w)
    ensures EntryOk(ph, Orphans(k, root), r, n, q, w)
  {
    hide PTE2PA, SetPTE, InBlock;
    if n == 2 && w != 0 {
      var p: nat :| LeafInto(ph, k, r, q, PTE2PA(w), p);
      assert LeafInto(ph, Orphans(k, root), r, q, PTE2PA(w), p);
    }
  }

  /** No other task can tell that clean_task has run. */
  lemma TornDownViews(ph: Phys, k: map<nat, Kind>, ph': Phys, root: nat, r: nat, x: nat)
    requires PhysOk(ph) && PhysOk(ph') && Forest(ph, k) && OthersKept(ph, k, ph', root) && IsRoot(k, r) && r != root
    ensures Convert(ph', r, x) == Convert(ph, r, x) && View(ph', r, x) == View(ph, r, x)
  {
    hide PhysOk, Forest, Convert, Translate, Width, Vpn;
    ConvertIsWalk(ph, r, x);
    ConvertIsWalk(ph', r, x);
    VpnBound(x);
    if Convert(ph, r, x) != 0 {
      var d := MappedPage(ph, k, r, x);
      ByteBacked(ph, d, Convert(ph, r, x));
    }
  }
}
