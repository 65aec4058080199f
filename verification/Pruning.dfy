/** What clean_pt removes: the tables under which nothing is mapped. */
module Pruning {
  import opened Sv39
  import opened Phys
  import opened PageTable
  import opened ForestChanges
  import opened Allocation
  import opened VirtualMemory

  /** Page x belongs to the part of the address space that a table serves. */
  ghost predicate Under(x: nat, node: Kind)
    requires node.Table?
  {
    x < Width(3) && (if node.level == 0 then true
                     else if node.level == 1 then x / 512 / 512 == node.prefix
                     else x / 512 == node.prefix)
  }

  ghost predicate Leafless(ph: Phys, node: Kind)
    requires PhysOk(ph) && node.Table?
  {
    forall x :: Under(x, node) ==> Translate(ph, node.root, x) == 0
  }

  /** b is a table of root, other than the root table itself. */
  ghost predicate SubTable(k: map<nat, Kind>, root: nat, b: nat)
  {
    IsTable(k, b) && k[b].root == root && k[b].level > 0
  }

  /** Only tables of root with nothing mapped under them have gone. */
  ghost predicate Pruned(ph: Phys, k: map<nat, Kind>, ph': Phys, k': map<nat, Kind>, root: nat)
    requires PhysOk(ph)
  {
    && PhysOk(ph') && Forest(ph', k') && SameTranslations(ph, ph', k) && KeepsData(ph, ph', k)
    && (forall b :: b in k' ==> b in k && k'[b] == k[b])
    && (forall b :: b in k && b !in k' ==> SubTable(k, root, b) && Leafless(ph, k[b]))
  }

  lemma PrunedTrans(ph: Phys, k: map<nat, Kind>, ph1: Phys, k1: map<nat, Kind>, ph2: Phys, k2: map<nat, Kind>,
                    root: nat)
    requires PhysOk(ph) && PhysOk(ph1) && IsRoot(k, root)
    requires Pruned(ph, k, ph1, k1, root) && Pruned(ph1, k1, ph2, k2, root)
    ensures Pruned(ph, k, ph2, k2, root)
  {
    hide Forest, Translate, Width, PhysOk, KeepsData, Under;
    KeepsDataTrans(ph, ph1, ph2, k, k1);
    forall b | b in k && b !in k2 ensures SubTable(k, root, b) && Leafless(ph, k[b]) {
      if b in k1 { LeaflessFrame(ph, ph1, k, k[b]); }
    }
    forall r, q: nat | IsRoot(k, r) && q < Width(3) ensures Translate(ph2, r, q) == Translate(ph, r, q) {
      assert r in k1;
    }
  }

  lemma LeaflessFrame(ph: Phys, ph': Phys, k: map<nat, Kind>, node: Kind)
    requires PhysOk(ph) && PhysOk(ph') && SameTranslations(ph, ph', k) && node.Table? && IsRoot(k, node.root)
    ensures Leafless(ph, node) <==> Leafless(ph', node)
  {
    hide Translate, Width, PhysOk;
  }

  lemma BarrenIsLeafless(ph: Phys, k: map<nat, Kind>, c: nat)
    requires PhysOk(ph) && Forest(ph, k) && IsTable(k, c) && k[c].level > 0 && Barren(ph, c)
    ensures Leafless(ph, k[c])
  {
    hide PTE2PA, Entry, PhysOk, Forest, EntryOk, Width;
    TableFacts(ph, k, c);
    ZeroEntry();
    var Table(r, n, q) := k[c];
    forall x: nat | Under(x, k[c]) ensures Translate(ph, r, x) == 0 {
      if n == 1 {
        assert Walk(ph, r, 2, x / 512) == PTE2PA(Entry(ph, c, x / 512 % 512));
        LowReadsZero(ph, x % 512);
      }
      assert Walk(ph, r, 3, x) == PTE2PA(Entry(ph, Walk(ph, r, 2, x / 512), x % 512));
    }
  }

  /** A last-level table with an entry in use has a leaf. */
  lemma UsedHasLeaf(ph: Phys, k: map<nat, Kind>, c: nat)
    requires PhysOk(ph) && Forest(ph, k) && IsTable(k, c) && k[c].level == 2 && !Barren(ph, c)
    ensures !Leafless(ph, k[c])
  {
    hide PTE2PA, Entry, PhysOk, Forest, EntryOk, Walk;
    var j :| 0 <= j < 512 && Entry(ph, c, j) != 0;
    EntryInUse(ph, k, c, j);
    LeafTranslation(ph, k, c, j);
    TableFacts(ph, k, c);
    SplitField(k[c].prefix, j);
    assert Width(3) == 512 * Width(2);
    assert Under(512 * k[c].prefix + j, k[c]);
  }

  lemma UsedParentHasLeaf(ph: Phys, k: map<nat, Kind>, t: nat, j: nat)
    requires PhysOk(ph) && Forest(ph, k) && IsTable(k, t) && k[t].level == 1 && j < 512 && Entry(ph, t, j) % 2 == 1
    requires !Barren(ph, PTE2PA(Entry(ph, t, j)))
    ensures !Leafless(ph, k[t])
  {
    hide PTE2PA, Entry, PhysOk, Forest, EntryOk, Walk, Width, Barren;
    EntryInUse(ph, k, t, j);
    var c := PTE2PA(Entry(ph, t, j));
    UsedHasLeaf(ph, k, c);
    SplitField(k[t].prefix, j);
    var x :| Under(x, k[c]) && Translate(ph, k[c].root, x) != 0;
    assert Under(x, k[t]);
  }

  /** Removing one empty table. */
  lemma UnlinkPrunes(ph: Phys, k: map<nat, Kind>, t: nat, i: nat, c: nat)
    requires PhysOk(ph) && Forest(ph, k) && IsTable(k, t) && k[t].level < 2 && i < 512
    requires IsTable(k, c) && k[c] == NodeAt(k, t, i) && Barren(ph, c)
    ensures c in ph.ext && var ph', k' := Unlink(ph, t, i, c), k - {c};
      && PhysOk(ph') && Pruned(ph, k, ph', k', k[t].root) && IsTable(k', t) && k'[t] == k[t]
      && SameEntriesBut(ph, ph', k, t, i) && Entry(ph', t, i) == 0
  {
    hide PhysOk, Forest, SameTranslations, KeepsData, Leafless, Entry, Unlink, SameEntriesBut, Barren;
    UnlinkParent(ph, k, t, i, c);
    UnlinkForest(ph, k, t, i, c);
    UnlinkKeepsData(ph, k, t, i, c);
    BarrenIsLeafless(ph, k, c);
  }

  /** No child of the table at t is empty. */
  ghost predicate TableDone(ph: Phys, t: nat, n: nat)
    requires PhysOk(ph)
  {
    forall j :: 0 <= j < n ==> EntryDone(ph, t, j)
  }

  ghost predicate EntryDone(ph: Phys, t: nat, j: nat)
    requires PhysOk(ph)
  {
    Entry(ph, t, j) % 2 == 1 ==> !Barren(ph, PTE2PA(Entry(ph, t, j)))
  }

  /** The same two levels down from the root. */
  ghost predicate RootDone(ph: Phys, root: nat, n: nat)
    requires PhysOk(ph)
  {
    && TableDone(ph, root, n)
    && forall j :: 0 <= j < n && Entry(ph, root, j) % 2 == 1 ==> TableDone(ph, PTE2PA(Entry(ph, root, j)), 512)
  }

  /** Outside table t, what is left of the tables has the same entries. */
  ghost predicate OthersSame(ph: Phys, ph': Phys, k': map<nat, Kind>, t: nat)
    requires PhysOk(ph) && PhysOk(ph')
  {
    forall b: nat, j: nat :: IsTable(k', b) && j < 512 && b != t ==> Entry(ph', b, j) == Entry(ph, b, j)
  }

  /** A checked entry stays checked while other parts of the tables change. */
  lemma EntryDoneFrame(ph: Phys, ph': Phys, k': map<nat, Kind>, t: nat, c: nat, j: nat)
    requires PhysOk(ph) && PhysOk(ph') && Forest(ph', k') && OthersSame(ph, ph', k', t)
    requires IsTable(k', c) && k'[c].level < 2 && j < 512 && Entry(ph', c, j) == Entry(ph, c, j) && EntryDone(ph, c, j)
    requires PTE2PA(Entry(ph', c, j)) != t
    ensures EntryDone(ph', c, j)
  {
  }

  /** An entry leads to no table of its own level or above. */
  lemma EntryLeadsDown(ph: Phys, k: map<nat, Kind>, t: nat, c: nat, j: nat)
    requires PhysOk(ph) && Forest(ph, k) && IsTable(k, c) && k[c].level < 2 && j < 512
    requires IsTable(k, t) && k[t].level <= k[c].level
    ensures PTE2PA(Entry(ph, c, j)) != t
  {
    hide PhysOk, Entry, Forest, PTE2PA, EntryOk, Walk;
    EntryInUse(ph, k, c, j);
    TableFacts(ph, k, t);
    ZeroEntry();
  }

  lemma TableDoneFrame(ph: Phys, ph': Phys, k': map<nat, Kind>, t: nat, c: nat)
    requires PhysOk(ph) && PhysOk(ph') && Forest(ph', k') && OthersSame(ph, ph', k', t)
    requires IsTable(k', c) && k'[c].level == 1 && c != t && TableDone(ph, c, 512)
    requires IsTable(k', t) && k'[t].level <= 1
    ensures TableDone(ph', c, 512)
  {
    hide PhysOk, Entry, Forest, EntryDone, PTE2PA;
    forall j | 0 <= j < 512 ensures EntryDone(ph', c, j) {
      EntryLeadsDown(ph', k', t, c, j);
      EntryDoneFrame(ph, ph', k', t, c, j);
    }
  }

  /** Every table is found from the root. */
  lemma SubTableParent(ph: Phys, k: map<nat, Kind>, root: nat, b: nat) returns (t: nat, j: nat)
    requires PhysOk(ph) && Forest(ph, k) && IsRoot(k, root) && SubTable(k, root, b)
    ensures IsTable(k, t) && k[t].root == root && k[t].level + 1 == k[b].level && j < 512
    ensures Entry(ph, t, j) % 2 == 1 && PTE2PA(Entry(ph, t, j)) == b
    ensures k[b].level == 1 ==> t == root
  {
    hide PhysOk, Entry, Forest, PTE2PA, EntryOk;
    TableFacts(ph, k, b);
    var Table(r, n, q) := k[b];
    PrefixUp(n, q);
    WalkFindsTable(ph, k, r, n - 1, q / 512);
    t, j := Walk(ph, r, n - 1, q / 512), q % 512;
    assert b == PTE2PA(Entry(ph, t, j));
    if t == 0 {
      LowReadsZero(ph, j);
      ZeroEntry();
    }
    EntryInUse(ph, k, t, j);
  }

  lemma PrefixUp(n: nat, q: nat)
    requires n > 0 && q < Width(n)
    ensures q / 512 < Width(n - 1)
  {
  }

  /** Once every row is done, no table but the root's is empty, and each has a leaf under it. */
  lemma AllDone(ph: Phys, k: map<nat, Kind>, root: nat, b: nat)
    requires PhysOk(ph) && Forest(ph, k) && IsRoot(k, root) && RootDone(ph, root, 512) && SubTable(k, root, b)
    ensures !Barren(ph, b) && !Leafless(ph, k[b])
  {
    hide PhysOk, Entry, Forest, PTE2PA, Leafless, Barren;
    var t, j := SubTableParent(ph, k, root, b);
    TableFacts(ph, k, b);
    if k[b].level == 2 {
      var r, i := SubTableParent(ph, k, root, t);
      assert TableDone(ph, t, 512) && EntryDone(ph, t, j);
      UsedHasLeaf(ph, k, b);
    } else {
      assert TableDone(ph, b, 512) && EntryDone(ph, root, j);
      UsedEntry(ph, k, b);
    }
  }

  lemma UsedEntry(ph: Phys, k: map<nat, Kind>, b: nat)
    requires PhysOk(ph) && Forest(ph, k) && IsTable(k, b) && k[b].level == 1 && !Barren(ph, b) && TableDone(ph, b, 512)
    ensures !Leafless(ph, k[b])
  {
    hide PhysOk, Entry, Forest, PTE2PA, Leafless;
    var j :| 0 <= j < 512 && Entry(ph, b, j) != 0;
    EntryInUse(ph, k, b, j);
    assert EntryDone(ph, b, j);
    UsedParentHasLeaf(ph, k, b, j);
  }

  /** Distinct entries lead to distinct tables. */
  lemma RowsApart(ph: Phys, k: map<nat, Kind>, t: nat, i: nat, j: nat)
    requires PhysOk(ph) && Forest(ph, k) && IsTable(k, t) && k[t].level < 2 && i < 512 && j < 512 && i != j
    requires Entry(ph, t, i) % 2 == 1
    ensures PTE2PA(Entry(ph, t, j)) != PTE2PA(Entry(ph, t, i))
  {
    hide PhysOk, Entry, Forest, PTE2PA;
    EntryInUse(ph, k, t, i);
    EntryInUse(ph, k, t, j);
    ZeroEntry();
  }

  /** No task can tell that clean_pt has run. */
  lemma PrunedViews(ph: Phys, k: map<nat, Kind>, ph': Phys, k': map<nat, Kind>, root: nat, r: nat, x: nat)
    requires PhysOk(ph) && Forest(ph, k) && Pruned(ph, k, ph', k', root) && IsRoot(k, r)
    ensures Convert(ph', r, x) == Convert(ph, r, x) && View(ph', r, x) == View(ph, r, x)
  {
    hide PhysOk, Forest, SameTranslations, KeepsData, Convert, View, Leafless;
    ConvertFrame(ph, ph', k, r, x);
    ViewFrame(ph, ph', k, r, x);
  }
}
