/** `remove`: the entry's slots first, then its clusters. */
module FatRemove {
  import opened Base
  import opened Blocks
  import opened FatLayout
  import opened FatChain
  import opened FatData
  import opened FatNames
  import opened FatDirectory
  import opened FatTree
  import opened FatFrame
  import opened FatPaths
  import opened FatTables
  import opened FatFree
  import opened FatSlots
  import opened FatSwitch
  import opened FatAtomic
  import opened FatAdd
  import opened FatEnter
  import opened FatFind
  import opened FatWrite
  import opened FatFiles
  import opened FatTorn
  import opened FatDelete
  import opened FatAside

  /** Every image the writes go through is well formed: no entry leads to a free
      cluster, or to one another entry has. */
  ghost predicate AlwaysWhole(v: Volume, d: Image, w: seq<Event>) {
    forall k | 0 <= k <= |w| :: Whole(v, Replay(d, w[..k]))
  }

  lemma WholeConcat(v: Volume, d: Image, a: seq<Event>, b: seq<Event>)
    requires AlwaysWhole(v, d, a) && AlwaysWhole(v, Replay(d, a), b)
    ensures AlwaysWhole(v, d, a + b)
  {
    hide Whole, Replay;
    forall k | 0 <= k <= |a + b|
      ensures Whole(v, Replay(d, (a + b)[..k]))
    {
      PrefixSplit(d, a, b, k);
      if k <= |a| {
        assert Whole(v, Replay(d, a[..k]));
      } else {
        assert Whole(v, Replay(Replay(d, a), b[..k - |a|]));
      }
    }
  }

  lemma WholeFrom(v: Volume, base: Image, d: Image, w: seq<Event>, target: Path, node: Node)
    requires v.Holds(base) && Atomic(v, base, d, w, target, node)
    ensures AlwaysWhole(v, d, w)
  {
    hide Whole, Replay, Contents;
    forall k | 0 <= k <= |w|
      ensures Whole(v, Replay(d, w[..k]))
    {
      assert AtomicAt(v, base, Replay(d, w[..k]), target, node);
    }
  }

  // ---- An entry in the middle of its deletion ---------------------------------------------------

  /** The same entries, whatever their names. */
  ghost predicate SameEntries(a: seq<Item>, b: seq<Item>) {
    |a| == |b| && forall k | 0 <= k < |a| :: a[k].entry == b[k].entry
  }

  lemma EntriesSame(v: Volume, d: Image, e: Image, t: Tree)
    requires v.Holds(d) && v.Holds(e) && t.dirs <= t.chains.Keys && EntriesOk(v, d, t) && RefsUnique(v, d, t)
    requires forall dir | dir in t.dirs :: SameEntries(ItemsIn(v, d, t, dir), ItemsIn(v, e, t, dir))
    ensures EntriesOk(v, e, t) && RefsUnique(v, e, t)
  {
    hide DirItems, EntryOk;
    forall dir, i | dir in t.dirs && 0 <= i < |ItemsIn(v, e, t, dir)|
      ensures EntryOk(v, t, ItemsIn(v, e, t, dir)[i].entry)
    {
      assert EntryOk(v, t, ItemsIn(v, d, t, dir)[i].entry);
    }
    forall a, i, b, j | a in t.dirs && 0 <= i < |ItemsIn(v, e, t, a)| && b in t.dirs && 0 <= j < |ItemsIn(v, e, t, b)|
                        && ItemsIn(v, e, t, a)[i].entry.cluster == ItemsIn(v, e, t, b)[j].entry.cluster != 0
      ensures a == b && i == j
    {
      assert ItemsIn(v, d, t, a)[i].entry.cluster == ItemsIn(v, d, t, b)[j].entry.cluster;
    }
  }

  /** A directory whose entries stayed, under other names, is as whole as it was. */
  lemma RelabelledWhole(v: Volume, d: Image, e: Image, t: Tree, dir: nat)
    requires WellFormed(v, d, t) && v.Holds(d) && v.Holds(e) && dir in t.dirs && dir in t.chains
    requires OnlyDir(v, d, e, t, dir)
    requires SameEntries(ItemsIn(v, d, t, dir), ItemsIn(v, e, t, dir))
    ensures WellFormed(v, e, t)
  {
    hide EntriesOk, RefsUnique, OnlyDir, DirItems, IsChain, NoShare;
    forall g | g in t.chains
      ensures IsChain(v, e, g, t.chains[g]) && (g != dir ==> ItemsIn(v, e, t, g) == ItemsIn(v, d, t, g))
    {
      OtherChain(v, d, e, t, dir, g);
    }
    EntriesSame(v, d, e, t);
  }

  // ---- An entry taken out -----------------------------------------------------------------------

  /** The chains in use once an entry is taken out. */
  ghost function Without(t: Tree, gone: nat): Tree {
    Tree(t.dirs - {gone}, t.chains - {gone})
  }

  /** What `remove` may take out: entry `i` of a directory reached by a path,
      the first of its name there. */
  ghost predicate Removable(v: Volume, d: Image, t: Tree, dir: nat, parent: Path, name: Name, i: nat) {
    && WellFormed(v, d, t) && v.Holds(d) && dir in t.dirs && dir in t.chains && LeadsTo(v, d, parent, dir)
    && Lookup(v, ItemsIn(v, d, t, dir), name) == Some(i)
  }

  lemma RemovableIs(v: Volume, d: Image, t: Tree, dir: nat, parent: Path, name: Name, i: nat)
    requires Removable(v, d, t, dir, parent, name, i)
    ensures i < |ItemsIn(v, d, t, dir)|
    ensures var entry := ItemsIn(v, d, t, dir)[i].entry;
            && EntryOk(v, t, entry) && entry.cluster != dir && entry.cluster != v.root
            && Find(v, d, parent + [name]) == Some(entry)
  {
    hide RefsUnique, ChainsOk, DirItems, Find, ChainLbas, Lookup;
    var items := ItemsIn(v, d, t, dir);
    var entry := items[i].entry;
    assert EntryOk(v, t, entry);
    FindNext(v, d, parent, name);
    ListDirIs(v, d, t, dir);
    assert Find(v, d, parent + [name]) == LookupEntry(v, items, name) == Some(entry);
    NotZero(v, d, t, v.root);
    if entry.cluster == dir {
      OwnParent(v, d, t, parent, name);
    }
  }

  /** No directory is its own parent. */
  lemma OwnParent(v: Volume, d: Image, t: Tree, parent: Path, name: Name)
    requires WellFormed(v, d, t) && v.Holds(d) && Find(v, d, parent).Some? && Find(v, d, parent + [name]).Some?
    requires Find(v, d, parent).value.directory && Find(v, d, parent).value.cluster in t.dirs
    ensures Find(v, d, parent + [name]).value.cluster != Find(v, d, parent).value.cluster
  {
    hide WellFormed, Find;
    var entry := Find(v, d, parent + [name]).value;
    FindOk(v, d, t, parent + [name]);
    TreeDirs(v, d, t);
    NotZero(v, d, t, Find(v, d, parent).value.cluster);
    if entry.cluster == Find(v, d, parent).value.cluster {
      if entry.directory {
        PathUnique(v, d, t, parent, parent + [name]);
      }
    }
  }

  lemma WithoutStep(v: Volume, d: Image, t: Tree, gone: nat)
    requires WellFormed(v, d, t) && gone != v.root
    ensures TreeStep(v, t, Without(t, gone), gone, 0, false)
  {
    hide EntriesOk, RefsUnique, ChainsOk;
    ZeroNoChain(v, d, t);
  }

  /** The volume without the entry: well formed, its chain in no use. */
  lemma TakenOut(v: Volume, d: Image, e: Image, t: Tree, dir: nat, parent: Path, name: Name, i: nat)
    requires Removable(v, d, t, dir, parent, name, i) && v.Holds(e) && OnlyDir(v, d, e, t, dir)
    requires i < |ItemsIn(v, d, t, dir)|
    requires Inserted(ItemsIn(v, e, t, dir), ItemsIn(v, d, t, dir), i, [ItemsIn(v, d, t, dir)[i]])
    ensures WellFormed(v, e, Without(t, ItemsIn(v, d, t, dir)[i].entry.cluster))
  {
    hide WellFormed, DirItems, OnlyDir, Lookup, LeadsTo, TreeStep;
    RemovableIs(v, d, t, dir, parent, name, i);
    TreeDirs(v, d, t);
    var before, after := ItemsIn(v, d, t, dir), ItemsIn(v, e, t, dir);
    var gone := before[i].entry.cluster;
    var u := Without(t, gone);
    WithoutStep(v, d, t, gone);
    assert dir in u.dirs && u.dirs <= u.chains.Keys && u.chains[dir] == t.chains[dir];
    SplicedOut(before, after, i);
    NoZeroRoot(v, d, t, dir);
    assert EditOk(v, d, e, t, u, dir, i, i + 1, []);
    EditTree(v, d, e, t, u, dir, i, i + 1, []);
  }

  lemma NoZeroRoot(v: Volume, d: Image, t: Tree, dir: nat)
    requires WellFormed(v, d, t) && dir in t.chains
    ensures dir != 0 && 0 !in t.chains
  {
    hide WellFormed;
    NotZero(v, d, t, dir);
    ZeroNoChain(v, d, t);
  }

  lemma SplicedOut(before: seq<Item>, after: seq<Item>, i: nat)
    requires i < |before| && Inserted(after, before, i, [before[i]])
    ensures Spliced(before, after, i, i + 1, [])
  {
    forall k | 0 <= k < |after|
      ensures after[k] == before[Origin(k, i, i + 1, 0)]
    {
      if k >= i {
        assert before[k + 1] == after[i..][k - i];
      }
    }
  }

  /** An image with the first slots of the entry deleted is well formed. */
  lemma DeletingWhole(v: Volume, d: Image, e: Image, t: Tree, dir: nat, parent: Path, name: Name, i: nat, m: nat)
    requires Removable(v, d, t, dir, parent, name, i) && i < |ItemsIn(v, d, t, dir)|
    requires var item := ItemsIn(v, d, t, dir)[i];
             item.firstSlot <= m <= item.slot + 1
                 && DirBecame(v, d, e, t.chains[dir], Deleted(DirSlots(v, d, t.chains[dir]), item.firstSlot, m))
    ensures v.Holds(e) && Whole(v, e)
    ensures m == ItemsIn(v, d, t, dir)[i].slot + 1 ==>
              && Inserted(ItemsIn(v, e, t, dir), ItemsIn(v, d, t, dir), i, [ItemsIn(v, d, t, dir)[i]])
              && WellFormed(v, e, Without(t, ItemsIn(v, d, t, dir)[i].entry.cluster))
  {
    hide WellFormed, DirSlots, Items, Deleted, OnlyDir, Lookup, LeadsTo, Find, DirBecame;
    var slots := DirSlots(v, d, t.chains[dir]);
    var item := ItemsIn(v, d, t, dir)[i];
    DeletedItems(slots, i, m);
    BecameHolds(v, d, e, t.chains[dir], Deleted(slots, item.firstSlot, m));
    DirOnly(v, d, e, t, dir, Deleted(slots, item.firstSlot, m));
    if Inserted(ItemsIn(v, e, t, dir), ItemsIn(v, d, t, dir), i, [item]) {
      TakenOut(v, d, e, t, dir, parent, name, i);
      WholeBy(v, e, Without(t, item.entry.cluster));
    } else {
      RelabelledWhole(v, d, e, t, dir);
      WholeBy(v, e, t);
    }
  }

  /** Every path reads as before but those through the name that goes, or through
      some name it is left with. */
  ghost predicate SparedAt(v: Volume, d: Image, e: Image, parent: Path, name: Name)
    requires v.Holds(d)
  {
    exists other: Name :: Spared(v, d, e, parent, name, other)
  }

  /** And it spares every path through neither the name nor what is left of it. */
  lemma DeletingSpares(v: Volume, d: Image, e: Image, t: Tree, dir: nat, parent: Path, name: Name, i: nat, m: nat)
    requires Removable(v, d, t, dir, parent, name, i) && i < |ItemsIn(v, d, t, dir)|
    requires var item := ItemsIn(v, d, t, dir)[i];
             item.firstSlot <= m <= item.slot + 1
                 && DirBecame(v, d, e, t.chains[dir], Deleted(DirSlots(v, d, t.chains[dir]), item.firstSlot, m))
    ensures v.Holds(d) && SparedAt(v, d, e, parent, name)
  {
    hide WellFormed, DirSlots, Items, Deleted, OnlyDir, Lookup, LeadsTo, Find, DirBecame, Contents, Left, Inserted,
      Through;
    var slots := DirSlots(v, d, t.chains[dir]);
    var item := ItemsIn(v, d, t, dir)[i];
    DeletedItems(slots, i, m);
    BecameHolds(v, d, e, t.chains[dir], Deleted(slots, item.firstSlot, m));
    DirOnly(v, d, e, t, dir, Deleted(slots, item.firstSlot, m));
    BecameSlots(v, d, e, t.chains[dir], Deleted(slots, item.firstSlot, m));
    var other := LeftSpares(v, d, e, t, dir, parent, i);
    SparedAs(v, d, e, e, parent, item.name, name, other);
  }

  lemma BecameSlots(v: Volume, d: Image, e: Image, chain: seq<nat>, slots: seq<Slot>)
    requires v.Holds(d) && v.Holds(e) && DirBecame(v, d, e, chain, slots)
    ensures DirSlots(v, e, chain) == slots
  {
    hide DirSlots, Agree;
  }

  /** At every point of the writes. */
  ghost predicate AlwaysSpared(v: Volume, d: Image, w: seq<Event>, parent: Path, name: Name)
    requires v.Holds(d)
  {
    forall k | 0 <= k <= |w| :: SparedAt(v, d, Replay(d, w[..k]), parent, name)
  }

  ghost predicate ReadsAlike(v: Volume, d: Image, e: Image)
    requires v.Holds(d)
  {
    v.Holds(e) && forall path :: Contents(v, e, path) == Contents(v, d, path)
  }

  /** Writes no path can see. */
  ghost predicate Unseen(v: Volume, d: Image, w: seq<Event>)
    requires v.Holds(d)
  {
    forall k | 0 <= k <= |w| :: ReadsAlike(v, d, Replay(d, w[..k]))
  }

  lemma DeadSpares(v: Volume, d: Image, t: Tree, dir: nat, parent: Path, name: Name, i: nat, w: seq<Event>)
    requires Removable(v, d, t, dir, parent, name, i) && i < |ItemsIn(v, d, t, dir)|
    requires var item := ItemsIn(v, d, t, dir)[i];
             item.firstSlot <= item.slot && |w| == item.slot + 1 - item.firstSlot
                 && DeadLog(v, d, t.chains[dir], item.firstSlot, w)
    ensures AlwaysSpared(v, d, w, parent, name)
  {
    hide WellFormed, DirSlots, Items, Deleted, Lookup, LeadsTo, Find, DirBecame, Replay, SparedAt;
    var item, home := ItemsIn(v, d, t, dir)[i], t.chains[dir];
    forall k | 0 <= k <= |w|
      ensures SparedAt(v, d, Replay(d, w[..k]), parent, name)
    {
      assert DirBecame(v, d, Replay(d, w[..k]), home, Deleted(DirSlots(v, d, home), item.firstSlot,
          item.firstSlot + k));
      DeletingSpares(v, d, Replay(d, w[..k]), t, dir, parent, name, i, item.firstSlot + k);
    }
  }

  lemma SparesOn(v: Volume, d: Image, a: seq<Event>, b: seq<Event>, parent: Path, name: Name)
    requires v.Holds(d) && v.Holds(Replay(d, a)) && AlwaysSpared(v, d, a, parent, name) && Unseen(v, Replay(d, a), b)
    ensures AlwaysSpared(v, d, a + b, parent, name)
  {
    hide Replay, SparedAt, ReadsAlike;
    assert a[..|a|] == a;
    forall k | 0 <= k <= |a + b|
      ensures SparedAt(v, d, Replay(d, (a + b)[..k]), parent, name)
    {
      PrefixSplit(d, a, b, k);
      if k <= |a| {
        assert SparedAt(v, d, Replay(d, a[..k]), parent, name);
      } else {
        assert SparedAt(v, d, Replay(d, a[..|a|]), parent, name);
        assert ReadsAlike(v, Replay(d, a), Replay(Replay(d, a), b[..k - |a|]));
        SpareLonger(v, d, Replay(d, a), Replay(Replay(d, a), b[..k - |a|]), parent, name);
      }
    }
  }

  lemma SpareLonger(v: Volume, d: Image, e: Image, f: Image, parent: Path, name: Name)
    requires v.Holds(d) && v.Holds(e) && SparedAt(v, d, e, parent, name) && ReadsAlike(v, e, f)
    ensures SparedAt(v, d, f, parent, name)
  {
    hide Spared, Contents;
    var other :| Spared(v, d, e, parent, name, other);
    SparedAs(v, d, e, f, parent, name, name, other);
  }

  // ---- What is left to read ---------------------------------------------------------------------

  /** Only one entry of the directory answers to the name. */
  ghost predicate OnlyOne(v: Volume, items: seq<Item>, name: Name) {
    forall i, j | 0 <= i < j < |items| :: !(v.SameName(items[i].name, name) && v.SameName(items[j].name, name))
  }

  /** Taking out the first item of a name leaves the names of the others. */
  lemma LookupTaken(v: Volume, before: seq<Item>, after: seq<Item>, i: nat, name: Name)
    requires Lookup(v, before, name) == Some(i) && i < |before| && Inserted(after, before, i, [before[i]])
    ensures forall n: Name | !v.SameName(n, name) :: LookupEntry(v, after, n) == LookupEntry(v, before, n)
    ensures Lookup(v, after, name) == None <==> OnlyOne(v, before, name)
  {
    hide Lookup;
    Taken(before, after, i);
    forall n: Name | !v.SameName(n, name)
      ensures LookupEntry(v, after, n) == LookupEntry(v, before, n)
    {
      LookupMoved(v, after, before, i, n);
    }
    if Lookup(v, after, name) == None {
      forall a, b | 0 <= a < b < |before|
        ensures !(v.SameName(before[a].name, name) && v.SameName(before[b].name, name))
      {
        assert b > i ==> before[b] == after[b - 1];
      }
    } else {
      var k := Lookup(v, after, name).value;
      assert k >= i;
      assert before[k + 1] == after[k];
    }
  }

  /** `e` is well formed and reads as `base`, with nothing at `target`. */
  ghost predicate ReadsWithout(v: Volume, base: Image, e: Image, target: Path)
    requires v.Holds(base)
  {
    && v.Holds(e) && Whole(v, e)
    && forall path :: Contents(v, e, path) == if SamePath(v, path, target) then None else Contents(v, base, path)
  }

  /** Once its slots are deleted the entry is not found, unless another one has
      its name; and every other path reads as before. */
  lemma TakenReads(v: Volume, d: Image, e: Image, t: Tree, dir: nat, parent: Path, name: Name, i: nat)
    requires Removable(v, d, t, dir, parent, name, i) && i < |ItemsIn(v, d, t, dir)|
    requires v.Holds(e) && OnlyDir(v, d, e, t, dir)
    requires WellFormed(v, e, Without(t, ItemsIn(v, d, t, dir)[i].entry.cluster))
    requires Inserted(ItemsIn(v, e, t, dir), ItemsIn(v, d, t, dir), i, [ItemsIn(v, d, t, dir)[i]])
    requires Childless(v, d, Some(ItemsIn(v, d, t, dir)[i].entry)) && OnlyOne(v, ItemsIn(v, d, t, dir), name)
    ensures ReadsWithout(v, d, e, parent + [name])
  {
    hide WellFormed, DirItems, OnlyDir, Lookup, LeadsTo, Find, FileBytes, Childless, ListDir, OnlyOne, Inserted;
    var gone := ItemsIn(v, d, t, dir)[i].entry.cluster;
    WholeBy(v, e, Without(t, gone));
    TakenRenamed(v, d, e, t, dir, parent, name, i);
    forall path
      ensures Contents(v, e, path) == if SamePath(v, path, parent + [name]) then None else Contents(v, d, path)
    {
      FindRenamed(v, d, e, t, parent, name, None, path);
      if Below(v, path, parent + [name]) {
        NothingBelow(v, d, e, t, parent, name, None, path);
      } else {
        SameNode(v, d, e, t, dir, path);
      }
    }
  }

  lemma TakenRenamed(v: Volume, d: Image, e: Image, t: Tree, dir: nat, parent: Path, name: Name, i: nat)
    requires Removable(v, d, t, dir, parent, name, i) && i < |ItemsIn(v, d, t, dir)|
    requires v.Holds(e) && OnlyDir(v, d, e, t, dir)
    requires Inserted(ItemsIn(v, e, t, dir), ItemsIn(v, d, t, dir), i, [ItemsIn(v, d, t, dir)[i]])
    requires Childless(v, d, Some(ItemsIn(v, d, t, dir)[i].entry)) && OnlyOne(v, ItemsIn(v, d, t, dir), name)
    ensures Renamed(v, d, e, t, parent, name, None)
  {
    hide WellFormed, DirItems, OnlyDir, Lookup, Find, ListDir, OnlyOne, Inserted;
    LookupTaken(v, ItemsIn(v, d, t, dir), ItemsIn(v, e, t, dir), i, name);
    TreeDirs(v, d, t);
    forall g | g in t.dirs
      ensures ListDir(v, e, g) == Some(ItemsIn(v, e, t, g)) && ListDir(v, d, g) == Some(ItemsIn(v, d, t, g))
      ensures g != dir ==> ListDir(v, e, g) == ListDir(v, d, g)
    {
      OtherChain(v, d, e, t, dir, g);
      ListDirIs(v, d, t, g);
      ListedAs(v, e, t, g);
    }
  }

  // ---- The slots, one by one --------------------------------------------------------------------

  /** The first `k` deletions of the entry whose slots start at `f`. */
  ghost predicate DeadLog(v: Volume, d: Image, chain: seq<nat>, f: nat, w: seq<Event>)
    requires v.Holds(d)
  {
    forall k | 0 <= k <= |w| :: DirBecame(v, d, Replay(d, w[..k]), chain, Deleted(DirSlots(v, d, chain), f, f + k))
  }

  lemma DeadNone(v: Volume, d: Image, chain: seq<nat>, f: nat)
    requires v.Holds(d)
    ensures DeadLog(v, d, chain, f, [])
  {
    hide DirSlots;
    var w: seq<Event> := [];
    assert w[..0] == [];
    assert Deleted(DirSlots(v, d, chain), f, f) == DirSlots(v, d, chain);
  }

  lemma DeadMore(v: Volume, d: Image, chain: seq<nat>, f: nat, w: seq<Event>)
    requires v.Holds(d) && v.AllIn(chain) && Distinct(chain) && DeadLog(v, d, chain, f, w)
    requires f + |w| < |DirSlots(v, d, chain)|
    ensures var e := Replay(d, w);
            && v.Holds(e) && DirSlots(v, e, chain) == Deleted(DirSlots(v, d, chain), f, f + |w|)
            && f + |w| < 16 * |ChainLbas(v, chain)|
            && DeadLog(v, d, chain, f, w + [SlotPut(v, e, chain, f + |w|, Dead(DirSlots(v, e, chain)[f + |w|]))])
  {
    hide DirBecame, ChainLbas, SlotPut, Replay, DirSlots, Dead, Deleted;
    var m, slots := f + |w|, DirSlots(v, d, chain);
    var e := Replay(d, w);
    assert w[..|w|] == w;
    BecameHolds(v, d, e, chain, Deleted(slots, f, m));
    SlotsCount(v, e, chain);
    SlotsCount(v, d, chain);
    DeletedMore(slots, f, m);
    var put := SlotPut(v, e, chain, m, Dead(DirSlots(v, e, chain)[m]));
    SlotWritten(v, e, chain, m, Dead(DirSlots(v, e, chain)[m]));
    BecameThen(v, d, e, Apply(e, put), chain, Deleted(slots, f, m), Deleted(slots, f, m + 1));
    ReplayPut(d, w, put);
    forall k | 0 <= k <= |w| + 1
      ensures DirBecame(v, d, Replay(d, (w + [put])[..k]), chain, Deleted(slots, f, f + k))
    {
      if k <= |w| {
        assert (w + [put])[..k] == w[..k];
      } else {
        assert (w + [put])[..k] == w + [put];
      }
    }
  }

  /** Deletes the slots from `f` to `s`. */
  method DeleteSlots(v: Volume, disk: Disk, chain: seq<nat>, f: nat, s: nat) returns (ok: bool, ghost w: seq<Event>)
    requires v.Holds(disk.sectors) && v.AllIn(chain) && Distinct(chain) && f <= s < |DirSlots(v, disk.sectors, chain)|
    modifies disk
    ensures Went(old(disk.sectors), old(disk.log), disk.sectors, disk.log, w)
    ensures ok && |w| == s + 1 - f && DeadLog(v, old(disk.sectors), chain, f, w)
  {
    hide DeadLog, Replay, DirSlots, SlotPut, ChainLbas, Dead, Deleted;
    ghost var d, log := disk.sectors, disk.log;
    WentNone(d, log);
    DeadNone(v, d, chain, f);
    w := [];
    for index := f to s + 1
      invariant |w| == index - f && Went(d, log, disk.sectors, disk.log, w) && DeadLog(v, d, chain, f, w)
      invariant v.Holds(disk.sectors)
    {
      ghost var mid, log1 := disk.sectors, disk.log;
      DeadMore(v, d, chain, f, w);
      ok := PatchSlot(v, disk, chain, index, raw => Dead(raw));
      assert ok;
      ghost var put := SlotPut(v, mid, chain, index, Dead(DirSlots(v, mid, chain)[index]));
      WentOn(d, log, mid, log1, w, disk.sectors, disk.log, [put]);
      w := w + [put];
      DeadHolds(v, d, chain, f, w);
    }
    ok := true;
  }

  lemma DeadHolds(v: Volume, d: Image, chain: seq<nat>, f: nat, w: seq<Event>)
    requires v.Holds(d) && DeadLog(v, d, chain, f, w)
    ensures DirBecame(v, d, Replay(d, w), chain, Deleted(DirSlots(v, d, chain), f, f + |w|)) && v.Holds(Replay(d, w))
  {
    hide DirSlots, Replay, Deleted, Agree;
    assert w[..|w|] == w;
  }

  // ---- remove -----------------------------------------------------------------------------------

  /** When `remove` succeeds: there is an entry, and no full directory. */
  ghost predicate CanRemove(v: Volume, d: Image, text: seq<nat>)
    requires v.Holds(d)
  {
    var place := Place(v, d, text);
    && place.Some?
    && var at := LookupEntry(v, DirItems(v, d, HomeChain(v, d, Parts(text))), place.value.1);
       at.Some? && Childless(v, d, at)
  }

  /** No other entry of its directory has the name. */
  ghost predicate SoleName(v: Volume, d: Image, text: seq<nat>)
    requires v.Holds(d)
  {
    Place(v, d, text).Some? && OnlyOne(v, DirItems(v, d, HomeChain(v, d, Parts(text))), Place(v, d, text).value.1)
  }

  /** Every step of the deletion is whole, and the last one has it taken out. */
  lemma DeadWhole(v: Volume, d: Image, t: Tree, dir: nat, parent: Path, name: Name, i: nat, w: seq<Event>)
    requires Removable(v, d, t, dir, parent, name, i) && i < |ItemsIn(v, d, t, dir)| && TidyAll(v, d, t)
    requires var item := ItemsIn(v, d, t, dir)[i];
             item.firstSlot <= item.slot && |w| == item.slot + 1 - item.firstSlot
                 && DeadLog(v, d, t.chains[dir], item.firstSlot, w)
    ensures AlwaysWhole(v, d, w)
    ensures var e, item := Replay(d, w), ItemsIn(v, d, t, dir)[i];
            && v.Holds(e) && OnlyDir(v, d, e, t, dir) && SameHead(v, d, e)
            && Inserted(ItemsIn(v, e, t, dir), ItemsIn(v, d, t, dir), i, [item])
            && WellFormed(v, e, Without(t, item.entry.cluster)) && TidyAll(v, e, Without(t, item.entry.cluster))
  {
    hide WellFormed, DirSlots, Items, Deleted, OnlyDir, Lookup, LeadsTo, Find, DirBecame, Replay, Whole, Inserted,
      TidyAll, SameHead;
    var item, home := ItemsIn(v, d, t, dir)[i], t.chains[dir];
    forall k | 0 <= k <= |w|
      ensures Whole(v, Replay(d, w[..k]))
    {
      assert DirBecame(v, d, Replay(d, w[..k]), home, Deleted(DirSlots(v, d, home), item.firstSlot,
          item.firstSlot + k));
      DeletingWhole(v, d, Replay(d, w[..k]), t, dir, parent, name, i, item.firstSlot + k);
    }
    assert w[..|w|] == w;
    var e := Replay(d, w);
    assert DirBecame(v, d, Replay(d, w[..|w|]), home, Deleted(DirSlots(v, d, home), item.firstSlot,
        item.firstSlot + |w|));
    DeletingWhole(v, d, e, t, dir, parent, name, i, item.slot + 1);
    DirOnly(v, d, e, t, dir, Deleted(DirSlots(v, d, home), item.firstSlot, item.slot + 1));
    BecameAgree(v, d, e, home, Deleted(DirSlots(v, d, home), item.firstSlot, item.slot + 1));
    BecameHolds(v, d, e, home, Deleted(DirSlots(v, d, home), item.firstSlot, item.slot + 1));
    TidyOf(v, d, t, dir);
    DeletedTidy(DirSlots(v, d, home), i, item.slot + 1);
    TidyWithout(v, d, e, t, dir, item.entry.cluster);
  }

  lemma TidyWithout(v: Volume, d: Image, e: Image, t: Tree, dir: nat, gone: nat)
    requires WellFormed(v, d, t) && v.Holds(d) && TidyAll(v, d, t) && dir in t.dirs && dir in t.chains
    requires Agree(v, d, e, Elements(t.chains[dir])) && v.Holds(e) && Tidy(DirSlots(v, e, t.chains[dir]))
    ensures TidyAll(v, e, Without(t, gone))
  {
    hide WellFormed, DirSlots, Tidy, Agree;
    TidyStepped(v, d, e, t, dir, gone, 0, [], false);
  }

  /** The chain taken out is in no use. */
  lemma WithoutUntouched(v: Volume, d: Image, t: Tree, gone: nat)
    requires WellFormed(v, d, t) && v.Holds(d)
    ensures Untouched(Without(t, gone), Elements(ChainAt(t, gone)))
  {
    hide EntriesOk, RefsUnique, IsChain;
    var u := Without(t, gone);
    forall f, c | f in u.chains && c in u.chains[f]
      ensures c !in Elements(ChainAt(t, gone))
    {
      assert gone in t.chains ==> NoShare(t.chains[f], t.chains[gone]);
    }
  }

  /** The chain freed after that shows in nothing but the FAT and the count. */
  lemma FreedSound(v: Volume, d0: Image, d: Image, u: Tree, old_: seq<nat>, w: seq<Event>)
    requires v.Holds(d0) && CountTrue(v, d0) && CopiesEqual(v, d0)
    requires WellFormed(v, d, u) && v.Holds(d) && TidyAll(v, d, u) && Untouched(u, Elements(old_))
    requires FreedBy(v, d, old_, w)
    requires SameHead(v, d0, d) && v.AllIn(old_) && Distinct(old_)
    requires forall k | 0 <= k < |old_| :: Fat(v, d0, old_[k]) != 0
    ensures v.Holds(Replay(d, w)) && Sound(v, Replay(d, w), u) && AlwaysWhole(v, d, w)
    ensures forall path :: Contents(v, Replay(d, w), path) == Contents(v, d, path)
    ensures forall path :: Find(v, Replay(d, w), path) == Find(v, d, path)
  {
    hide WellFormed, Replay, TidyAll, Contents, Find, CopiesEqual, FsCount, FreeSet, Fat, AgreeAll, Agree, SameHead,
      Untouched, Atomic, Reads;
    var e := Replay(d, w);
    SameHeadFat(v, d0, d);
    ReadsSame(v, d, u, [], Folder);
    OutsideAtomic(v, d, d, u, w, Elements(old_), [], Folder);
    WholeFrom(v, d, d, w, [], Folder);
    AgreeEnd(v, d, w, Elements(old_));
    TidyOutside(v, d, e, u, Elements(old_));
    FreedSet(v, d, e, old_);
    NotFree(v, d0, old_);
    assert Elements([]) == {};
    CountReplaced(v, d0, e, [], old_);
  }

  /** No path can see the chain being freed. */
  lemma FreedUnseen(v: Volume, d: Image, u: Tree, old_: seq<nat>, w: seq<Event>)
    requires WellFormed(v, d, u) && v.Holds(d) && Untouched(u, Elements(old_)) && FreedBy(v, d, old_, w)
    ensures Unseen(v, d, w)
  {
    hide WellFormed, Replay, FreeSet, Fat, AgreeAll, Untouched, Atomic, Reads, ReadsAlike, FsCount, CopiesEqual;
    ReadsSame(v, d, u, [], Folder);
    OutsideAtomic(v, d, d, u, w, Elements(old_), [], Folder);
    forall k | 0 <= k <= |w|
      ensures ReadsAlike(v, d, Replay(d, w[..k]))
    {
      AtomicSome(v, d, d, w, [], Folder, k);
      RootAtomic(v, d, Replay(d, w[..k]));
    }
  }

  /** The root reads as a directory anyway. */
  lemma RootAtomic(v: Volume, d: Image, e: Image)
    requires v.Holds(d) && AtomicAt(v, d, e, [], Folder)
    ensures ReadsAlike(v, d, e)
  {
    hide Whole;
    assert Find(v, d, []) == Some(RootEntry(v));
    forall path | SamePath(v, path, [])
      ensures Contents(v, d, path) == Some(Folder)
    {
      assert path == [];
    }
  }

  lemma NotFree(v: Volume, d: Image, chain: seq<nat>)
    requires v.Holds(d) && v.AllIn(chain) && forall k | 0 <= k < |chain| :: Fat(v, d, chain[k]) != 0
    ensures forall k | 0 <= k < |chain| :: chain[k] !in FreeSet(v, d)
  {
    hide Fat;
  }

  lemma CanRemoveIs(v: Volume, d: Image, text: seq<nat>)
    requires v.Holds(d)
    ensures CanRemove(v, d, text) ==> Place(v, d, text).Some?
    ensures Place(v, d, text).Some? ==>
              var at := LookupEntry(v, DirItems(v, d, HomeChain(v, d, Parts(text))), Place(v, d, text).value.1);
              CanRemove(v, d, text) <==> at.Some? && Childless(v, d, at)
    ensures Place(v, d, text).Some? ==>
              (SoleName(v, d, text) <==>
               OnlyOne(v, DirItems(v, d, HomeChain(v, d, Parts(text))), Place(v, d, text).value.1))
  {
    hide Place, HomeChain, DirItems, LookupEntry, Childless, OnlyOne;
  }

  lemma PlaceRemovable(v: Volume, d: Image, t: Tree, text: seq<nat>, directory: Directory, i: nat)
    requires Sound(v, d, t) && Place(v, d, text).Some?
    requires IsDirectory(v, d, Place(v, d, text).value.0.cluster, directory)
    requires Lookup(v, directory.items, Place(v, d, text).value.1) == Some(i) && i < |directory.items|
    ensures var (parent, name) := Place(v, d, text).value;
            && Removable(v, d, t, parent.cluster, Parts(Halves(text).0), name, i) && TidyAll(v, d, t)
            && i < |ItemsIn(v, d, t, parent.cluster)| && directory.items[i] == ItemsIn(v, d, t, parent.cluster)[i]
    ensures directory.items[i].firstSlot <= directory.items[i].slot < |directory.slots|
    ensures directory.items == DirItems(v, d, HomeChain(v, d, Parts(text))) && v.AllIn(directory.chain)
    ensures Distinct(directory.chain)
    ensures directory.slots == DirSlots(v, d, directory.chain)
  {
    hide WellFormed, DirSlots, Items, Lookup, LeadsTo, Find, CopiesEqual, CountTrue, TidyAll, Place, HomeChain, Parts,
      Halves, ChainOf, ValidName;
    PlaceIs(v, d, t, text, directory);
    LastOk(v, d, t, Place(v, d, text).value.0.cluster);
    ItemSlotsOf(directory.slots, i);
  }

  lemma ItemSlotsOf(slots: seq<Slot>, i: nat)
    requires i < |Items(slots)|
    ensures Items(slots)[i].firstSlot <= Items(slots)[i].slot < |slots|
  {
    hide ScanTo, SlotEntry;
    ItemSlots(slots, |slots|);
    assert ItemOk(slots, Items(slots)[i]);
  }

  /** Succeeds exactly on an entry with nothing below it. Stopped anywhere,
      the volume is well formed, and all paths read as before but those through
      the name or through what is left of it; completed, the volume is as sound
      as it was, and the path reads nothing, all others as before, if and only if
      no other entry had the name. */
  method Remove(v: Volume, disk: Disk, text: seq<nat>, ghost t: Tree) returns (ok: bool, ghost w: seq<Event>,
      ghost u: Tree)
    requires Sound(v, disk.sectors, t)
    modifies disk
    ensures Went(old(disk.sectors), old(disk.log), disk.sectors, disk.log, w)
    ensures ok <==> CanRemove(v, old(disk.sectors), text)
    ensures !ok ==> w == []
    ensures AlwaysWhole(v, old(disk.sectors), w)
    ensures ok ==> AlwaysSpared(v, old(disk.sectors), w, Parts(Halves(text).0), Halves(text).1)
    ensures ok ==> Sound(v, disk.sectors, u)
    ensures ok ==>
              (ReadsWithout(v, old(disk.sectors), disk.sectors, Parts(text)) <==> SoleName(v, old(disk.sectors), text))
  {
    hide *;
    ghost var d, log, target := disk.sectors, disk.log, Parts(text);
    SoundHolds(v, d, t);
    ReadsSame(v, d, t, target, Folder);
    WholeFrom(v, d, d, [], target, Folder);
    WentNone(d, log);
    ok, w, u := false, [], t;
    CanRemoveIs(v, d, text);
    var place := ParentAndName(v, disk, text);
    if place.None? {
      return;
    }
    var (parent, name) := place.value;
    var directory := ReadDirectory(v, disk, parent.cluster);
    PlaceListed(v, d, t, text);
    assert directory.Some?;
    PlaceIs(v, d, t, text, directory.value);
    var at := FirstNamed(v, directory.value.items, name);
    if at.None? {
      return;
    }
    var item := directory.value.items[at.value];
    ChildlessIs(v, d, item.entry);
    if item.entry.directory {
      var inside := ReadDirectory(v, disk, item.entry.cluster);
      if inside.None? {
        return;
      }
      ListedIs(v, d, item.entry.cluster, inside.value);
      if inside.value.items != [] {
        return;
      }
    }
    ghost var dir, before, i := parent.cluster, Parts(Halves(text).0), at.value;
    PlaceRemovable(v, d, t, text, directory.value, i);
    ghost var w1, w2;
    ok, w1 := DeleteSlots(v, disk, directory.value.chain, item.firstSlot, item.slot);
    ghost var d1, log1 := disk.sectors, disk.log;
    WentTo(d, log, d1, log1, w1);
    DeadWhole(v, d, t, dir, before, name, i, w1);
    DeadSpares(v, d, t, dir, before, name, i, w1);
    OldChain(v, d, d1, t, dir, i);
    WithoutUntouched(v, d, t, item.entry.cluster);
    ok, w2 := FreeChain(v, disk, item.entry.cluster);
    WentTo(d1, log1, disk.sectors, disk.log, w2);
    WentOn(d, log, d1, log1, w1, disk.sectors, disk.log, w2);
    u := Without(t, item.entry.cluster);
    SoundParts(v, d, t);
    FreedSound(v, d, d1, u, ChainAt(t, item.entry.cluster), w2);
    WholeConcat(v, d, w1, w2);
    FreedUnseen(v, d1, u, ChainAt(t, item.entry.cluster), w2);
    SparesOn(v, d, w1, w2, before, name);
    SoundHolds(v, disk.sectors, u);
    WholeBy(v, disk.sectors, u);
    RemovedReads(v, d, d1, disk.sectors, t, dir, before, name, i);
    w := w1 + w2;
  }

  lemma ChildlessIs(v: Volume, d: Image, entry: Entry)
    requires v.Holds(d)
    ensures Childless(v, d, Some(entry)) <==> (entry.directory ==> ListDir(v, d, entry.cluster) == Some([]))
    ensures ChainOf(v, d, entry.cluster).None? ==> ListDir(v, d, entry.cluster) == None
  {
    hide ChainOf, DirItems;
  }

  lemma SoundParts(v: Volume, d: Image, t: Tree)
    requires Sound(v, d, t)
    ensures v.Holds(d) && CountTrue(v, d) && CopiesEqual(v, d) && v.fats >= 0
  {
    hide WellFormed, TidyAll, CopiesEqual, CountTrue;
  }

  /** What reads at the end: nothing at the target, unless a second entry of
      that name comes to light. */
  lemma RemovedReads(v: Volume, d: Image, d1: Image, e: Image, t: Tree, dir: nat, parent: Path, name: Name, i: nat)
    requires Removable(v, d, t, dir, parent, name, i) && i < |ItemsIn(v, d, t, dir)|
    requires Childless(v, d, Some(ItemsIn(v, d, t, dir)[i].entry))
    requires v.Holds(d1) && OnlyDir(v, d, d1, t, dir)
    requires WellFormed(v, d1, Without(t, ItemsIn(v, d, t, dir)[i].entry.cluster))
    requires Inserted(ItemsIn(v, d1, t, dir), ItemsIn(v, d, t, dir), i, [ItemsIn(v, d, t, dir)[i]])
    requires v.Holds(e) && Whole(v, e) && (forall path :: Contents(v, e, path) == Contents(v, d1, path))
    ensures ReadsWithout(v, d, e, parent + [name]) <==> OnlyOne(v, ItemsIn(v, d, t, dir), name)
  {
    hide WellFormed, DirItems, OnlyDir, Lookup, LeadsTo, Contents, Childless, OnlyOne, Inserted, SamePath, Whole;
    if OnlyOne(v, ItemsIn(v, d, t, dir), name) {
      TakenReads(v, d, d1, t, dir, parent, name, i);
    } else {
      SecondShows(v, d, d1, t, dir, parent, name, i);
      SameSelf(v, parent + [name]);
    }
  }

  lemma SameSelf(v: Volume, path: Path)
    ensures SamePath(v, path, path)
  {
  }

  lemma SecondShows(v: Volume, d: Image, e: Image, t: Tree, dir: nat, parent: Path, name: Name, i: nat)
    requires Removable(v, d, t, dir, parent, name, i) && i < |ItemsIn(v, d, t, dir)|
    requires v.Holds(e) && OnlyDir(v, d, e, t, dir)
    requires WellFormed(v, e, Without(t, ItemsIn(v, d, t, dir)[i].entry.cluster))
    requires Inserted(ItemsIn(v, e, t, dir), ItemsIn(v, d, t, dir), i, [ItemsIn(v, d, t, dir)[i]])
    requires !OnlyOne(v, ItemsIn(v, d, t, dir), name)
    ensures Contents(v, e, parent + [name]).Some?
  {
    hide WellFormed, DirItems, OnlyDir, Lookup, Find, FileBytes, OnlyOne, Inserted, Agree, Without;
    var u := Without(t, ItemsIn(v, d, t, dir)[i].entry.cluster);
    LookupTaken(v, ItemsIn(v, d, t, dir), ItemsIn(v, e, t, dir), i, name);
    ApartFrom(v, d, t, dir);
    OnlyAgrees(v, d, e, t, dir);
    FindAbove(v, d, e, t, dir, parent, (set c | c in t.chains[dir]), |parent|);
    assert parent[..|parent|] == parent;
    FindNext(v, e, parent, name);
    OtherChain(v, d, e, t, dir, dir);
    ListedAs(v, e, t, dir);
    FindOk(v, e, u, parent + [name]);
    var entry := Find(v, e, parent + [name]).value;
    if !entry.directory {
      FileReads(v, e, u, entry);
    }
  }

  lemma OnlyAgrees(v: Volume, d: Image, e: Image, t: Tree, dir: nat)
    requires v.Holds(d) && dir in t.chains && OnlyDir(v, d, e, t, dir)
    ensures Agree(v, d, e, set c | c in t.chains[dir])
  {
    hide Agree;
  }

  lemma ApartFrom(v: Volume, d: Image, t: Tree, dir: nat)
    requires WellFormed(v, d, t) && dir in t.chains
    ensures forall f, c | f in t.chains && f != dir && c in t.chains[f] :: c !in (set x | x in t.chains[dir])
  {
    hide EntriesOk, RefsUnique, IsChain;
    forall f, c | f in t.chains && f != dir && c in t.chains[f]
      ensures c !in (set x | x in t.chains[dir])
    {
      assert NoShare(t.chains[f], t.chains[dir]);
    }
  }
}
