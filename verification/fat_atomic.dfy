/** Stopping half-way: what every prefix of a run of writes reads. */
module FatAtomic {
  import opened Base
  import opened Blocks
  import opened FatLayout
  import opened FatChain
  import opened FatData
  import opened FatNames
  import opened FatDirectory
  import opened FatTree
  import opened FatFrame
  import opened FatTables
  import opened FatSlots
  import opened FatSwitch
  import opened FatGrow

  ghost predicate Whole(v: Volume, e: Image) {
    exists t :: WellFormed(v, e, t)
  }

  /** `e` is well formed and reads as `base` at every path. */
  ghost predicate Reads(v: Volume, base: Image, e: Image)
    requires v.Holds(base)
  {
    v.Holds(e) && Whole(v, e) && forall path :: Contents(v, e, path) == Contents(v, base, path)
  }

  /** `e` is well formed and reads as `base`, but for `node` at `target`. */
  ghost predicate ReadsWith(v: Volume, base: Image, e: Image, target: Path, node: Node)
    requires v.Holds(base)
  {
    && v.Holds(e) && Whole(v, e)
    && forall path :: Contents(v, e, path) == if SamePath(v, path, target) then Some(node) else Contents(v, base, path)
  }

  ghost predicate AtomicAt(v: Volume, base: Image, e: Image, target: Path, node: Node)
    requires v.Holds(base)
  {
    Reads(v, base, e) || ReadsWith(v, base, e, target, node)
  }

  /** From `d`, every image the writes `w` go through is well formed, and reads
      as `base` did or as `base` with `node` at `target`: wholly old or wholly
      new, all other paths untouched. */
  ghost predicate Atomic(v: Volume, base: Image, d: Image, w: seq<Event>, target: Path, node: Node)
    requires v.Holds(base)
  {
    forall k | 0 <= k <= |w| :: AtomicAt(v, base, Replay(d, w[..k]), target, node)
  }

  lemma AtomicConcat(v: Volume, base: Image, d: Image, a: seq<Event>, b: seq<Event>, target: Path, node: Node)
    requires v.Holds(base)
    requires Atomic(v, base, d, a, target, node) && Atomic(v, base, Replay(d, a), b, target, node)
    ensures Atomic(v, base, d, a + b, target, node)
  {
    hide AtomicAt, Replay;
    forall k | 0 <= k <= |a + b|
      ensures AtomicAt(v, base, Replay(d, (a + b)[..k]), target, node)
    {
      PrefixSplit(d, a, b, k);
      if k <= |a| {
        assert AtomicAt(v, base, Replay(d, a[..k]), target, node);
      } else {
        assert AtomicAt(v, base, Replay(Replay(d, a), b[..k - |a|]), target, node);
      }
    }
  }

  lemma WholeBy(v: Volume, e: Image, t: Tree)
    requires WellFormed(v, e, t)
    ensures v.Holds(e) && Whole(v, e)
  {
    hide ChainsOk, EntriesOk, RefsUnique;
  }

  /** Writes that stay outside the chains in use keep every path as it was. */
  lemma OutsideAtomic(v: Volume, base: Image, d: Image, t: Tree, w: seq<Event>, touched: set<nat>, target: Path,
      node: Node)
    requires v.Holds(base) && WellFormed(v, d, t)
    requires v.Holds(d) && AgreeAll(v, d, w, touched) && Untouched(t, touched)
    requires Reads(v, base, d) || ReadsWith(v, base, d, target, node)
    ensures Atomic(v, base, d, w, target, node)
    ensures WellFormed(v, Replay(d, w), t)
    ensures forall path :: v.Holds(Replay(d, w)) && Contents(v, Replay(d, w), path) == Contents(v, d, path)
    ensures forall path :: v.Holds(Replay(d, w)) && Find(v, Replay(d, w), path) == Find(v, d, path)
  {
    hide WellFormed, Contents, Replay, Untouched, Agree, Find;
    forall k | 0 <= k <= |w|
      ensures WellFormed(v, Replay(d, w[..k]), t) && v.Holds(Replay(d, w[..k]))
      ensures forall path :: Contents(v, Replay(d, w[..k]), path) == Contents(v, d, path)
      ensures forall path :: Find(v, Replay(d, w[..k]), path) == Find(v, d, path)
    {
      var e := Replay(d, w[..k]);
      SameTree(v, d, e, t, touched);
      WholeBy(v, e, t);
      forall path
        ensures Contents(v, e, path) == Contents(v, d, path) && Find(v, e, path) == Find(v, d, path)
      {
        SameContents(v, d, e, t, touched, path);
        SameFind(v, d, e, t, touched, path);
      }
    }
    forall k | 0 <= k <= |w|
      ensures AtomicAt(v, base, Replay(d, w[..k]), target, node)
    {
      WholeBy(v, Replay(d, w[..k]), t);
    }
    assert w[..|w|] == w;
  }

  /** A directory rewritten without its entries moving reads as before. */
  lemma SameItems(v: Volume, d: Image, e: Image, t: Tree, dir: nat, chain: seq<nat>, slots: seq<Slot>)
    requires WellFormed(v, d, t) && v.Holds(d) && dir in t.dirs && dir in t.chains && chain == t.chains[dir]
    requires DirBecame(v, d, e, chain, slots) && Items(slots) == ItemsIn(v, d, t, dir)
    ensures v.Holds(e) && WellFormed(v, e, t)
    ensures forall path :: Contents(v, e, path) == Contents(v, d, path)
  {
    hide EntriesOk, RefsUnique, Agree, SameHead, IsChain, Items, DirSlots, NoShare;
    assert v.Holds(e) by {
      HeadHolds(v, d, e);
    }
    DirOnly(v, d, e, t, dir, slots);
    forall g | g in t.chains
      ensures IsChain(v, e, g, t.chains[g]) && ItemsIn(v, e, t, g) == ItemsIn(v, d, t, g)
      ensures ListDir(v, e, g) == ListDir(v, d, g)
    {
      OtherChain(v, d, e, t, dir, g);
      ListDirIs(v, d, t, g);
      ListedAs(v, e, t, g);
    }
    SameRefs(v, d, e, t);
    forall path
      ensures Contents(v, e, path) == Contents(v, d, path)
    {
      SameListsFind(v, d, e, t, path);
      SameNode(v, d, e, t, dir, path);
    }
  }

  lemma HeadHolds(v: Volume, d: Image, e: Image)
    requires v.Holds(d) && SameHead(v, d, e)
    ensures v.Holds(e)
  {
  }

  lemma DirOnly(v: Volume, d: Image, e: Image, t: Tree, dir: nat, slots: seq<Slot>)
    requires v.Holds(d) && dir in t.chains && DirBecame(v, d, e, t.chains[dir], slots)
    ensures OnlyDir(v, d, e, t, dir)
  {
    hide Agree, SameHead, Fat, DirSlots;
    SameHeadFat(v, d, e);
    assert Elements(t.chains[dir]) == set c | c in t.chains[dir];
  }

  lemma SameNode(v: Volume, d: Image, e: Image, t: Tree, dir: nat, path: Path)
    requires WellFormed(v, d, t) && v.Holds(d) && v.Holds(e) && dir in t.dirs && dir in t.chains
    requires OnlyDir(v, d, e, t, dir)
    ensures NodeAt(v, e, Find(v, d, path)) == NodeAt(v, d, Find(v, d, path))
  {
    hide EntriesOk, RefsUnique, FileBytes, DirItems, Agree, IsChain, ChainLbas;
    var at := Find(v, d, path);
    FindOk(v, d, t, path);
    if at.Some? && !at.value.directory {
      FindFile(v, d, path);
      if at.value.cluster != 0 {
        assert NoShare(t.chains[at.value.cluster], t.chains[dir]);
      }
      SameFile(v, d, e, t, (set c | c in t.chains[dir]), at.value);
    }
  }

  // ---- The switch, stopped half-way -------------------------------------------------------------

  /** The writes that put `news` into slots from `start` on, one after the other. */
  ghost predicate SlotsLog(v: Volume, d: Image, chain: seq<nat>, start: nat, news: seq<Slot>, w: seq<Event>)
    requires v.Holds(d)
  {
    && |w| == |news| && start + |news| <= |DirSlots(v, d, chain)|
    && forall m | 0 <= m <= |w| :: DirBecame(v, d, Replay(d, w[..m]), chain, Replace(DirSlots(v, d, chain), start,
        news[..m]))
  }

  /** A switch that is the last write of `w`: every image before it reads as the
      old one, and the last one reads as the new one. */
  lemma SwitchedAtomic(v: Volume, d: Image, t: Tree, dir: nat, parent: Path, name: Name, w: seq<Event>, i: nat, j: nat,
      entry: Entry, chain: seq<nat>, node: Node)
    requires WellFormed(v, d, t) && v.Holds(d) && dir in t.dirs && dir in t.chains && w != []
    requires forall m | 0 <= m < |w| ::
               exists slots :: DirBecame(v, d, Replay(d, w[..m]), t.chains[dir], slots)
                   && Items(slots) == ItemsIn(v, d, t, dir)
    requires Switch(v, d, Replay(d, w), t, dir, name, i, j, entry) && LeadsTo(v, d, parent, dir)
    requires NewChain(v, d, t, entry.cluster, chain) && NewEntry(v, d, entry, chain)
    requires NodeAt(v, d, Some(entry)) == Some(node)
    ensures Atomic(v, d, d, w, parent + [name], node)
    ensures v.Holds(Replay(d, w)) && ReadsWith(v, d, Replay(d, w), parent + [name], node)
    ensures i <= j <= |ItemsIn(v, d, t, dir)|
    ensures WellFormed(v, Replay(d, w), Stepped(t, Gone(ItemsIn(v, d, t, dir), i, j), entry.cluster, chain,
            entry.directory))
  {
    hide WellFormed, Contents, Switch, NewChain, NewEntry, Stepped, DirBecame, Items, NodeAt, LeadsTo, Replay;
    var e := Replay(d, w);
    SwitchTree(v, d, e, t, dir, name, i, j, entry, chain);
    WholeBy(v, e, Stepped(t, Gone(ItemsIn(v, d, t, dir), i, j), entry.cluster, chain, entry.directory));
    forall path
      ensures Contents(v, e, path) == if SamePath(v, path, parent + [name]) then Some(node) else Contents(v, d, path)
    {
      SwitchContents(v, d, e, t, dir, parent, name, i, j, entry, chain, path);
    }
    forall k | 0 <= k <= |w|
      ensures AtomicAt(v, d, Replay(d, w[..k]), parent + [name], node)
    {
      if k < |w| {
        var slots :| DirBecame(v, d, Replay(d, w[..k]), t.chains[dir], slots) && Items(slots) == ItemsIn(v, d, t, dir);
        SameItems(v, d, Replay(d, w[..k]), t, dir, t.chains[dir], slots);
        WholeBy(v, Replay(d, w[..k]), t);
      } else {
        assert w[..k] == w;
      }
    }
  }
}
