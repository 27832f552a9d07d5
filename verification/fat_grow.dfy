/** A directory that has no room grows by one zeroed cluster. */
module FatGrow {
  import opened Base
  import opened Blocks
  import opened FatLayout
  import opened FatChain
  import opened FatData
  import opened FatNames
  import opened FatDirectory
  import opened FatTree
  import opened FatFrame
  import opened FatTables
  import opened FatSlots

  // ---- The order of a flush ---------------------------------------------------------------------

  lemma {:induction false} FlushPrefix(v: Volume, cache: seq<Cached>, j: nat)
    requires j <= |cache|
    ensures FlushLog(v, cache[..j]) <= FlushLog(v, cache)
  {
    if j < |cache| {
      FlushPrefix(v, cache[..|cache| - 1], j);
      assert cache[..|cache| - 1][..j] == cache[..j];
    } else {
      assert cache[..j] == cache;
    }
  }

  /** FAT sectors are written in the order they were first read: as long as the
      later of two has not been touched the disk may show neither or the
      earlier one, but never the later one alone. */
  lemma FlushOrder(v: Volume, d: Image, cache: seq<Cached>, changes: map<nat, nat>, k: nat, i: nat, j: nat)
    requires v.Holds(d) && CacheOk(v, d, cache, changes) && k <= |FlushLog(v, cache)| && 0 < v.fats
    requires i < j < |cache| && cache[i].dirty
    ensures var e := Replay(d, FlushLog(v, cache)[..k]);
            || e[v.fatStart + cache[j].index] == d[v.fatStart + cache[j].index]
            || e[v.fatStart + cache[i].index] == cache[i].bytes
  {
    hide FlushLog, CachedOk, Fat, DirtyIn;
    var w, front := FlushLog(v, cache), FlushLog(v, cache[..j]);
    FlushPrefix(v, cache, j);
    assert w[..|front|] == front;
    if k <= |front| {
      assert w[..k] == front[..k];
      FlushMisses(v, cache[..j], cache[j].index);
      ReplayUntouched(d, w[..k], v.fatStart + cache[j].index);
    } else {
      FlushFinal(v, d, cache[..j], i, 0);
      var back := w[|front|..k];
      assert w[..k] == front + back;
      ReplayConcat(d, front, back);
      forall q | 0 <= q < |back|
        ensures back[q].Put? && back[q].lba != v.fatStart + cache[i].index
      {
        assert back[q] == w[|front| + q];
        LaterEvent(v, cache, j, |front| + q, i);
      }
      ReplayUntouched(Replay(d, front), back, v.fatStart + cache[i].index);
    }
  }

  lemma FlushMisses(v: Volume, cache: seq<Cached>, index: nat)
    requires Indexed(v, cache) && index < v.fatSize && forall i | 0 <= i < |cache| :: cache[i].index != index
    ensures forall k | 0 <= k < |FlushLog(v, cache)| ::
              FlushLog(v, cache)[k].Put? && FlushLog(v, cache)[k].lba != v.fatStart + index
  {
    hide FlushLog;
    FlushOther(v, cache, 0, index);
  }

  /** What a flush writes after the sectors before `j` is not one of them. */
  lemma {:induction false} LaterEvent(v: Volume, cache: seq<Cached>, j: nat, k: nat, i: nat)
    requires Indexed(v, cache) && i < j <= |cache| && |FlushLog(v, cache[..j])| <= k < |FlushLog(v, cache)|
    ensures FlushLog(v, cache)[k].Put? && FlushLog(v, cache)[k].lba != v.fatStart + cache[i].index
  {
    var n := |cache| - 1;
    assert cache[..|cache|] == cache;
    if j < |cache| {
      assert cache[..n][..j] == cache[..j];
      var front := FlushLog(v, cache[..n]);
      if k < |front| {
        LaterEvent(v, cache[..n], j, k, i);
      } else {
        if FatLba(v, k - |front|, cache[n].index) == FatLba(v, 0, cache[i].index) {
          FatLbaUnique(v, k - |front|, cache[n].index, 0, cache[i].index);
        }
        assert FatLba(v, 0, cache[i].index) == v.fatStart + cache[i].index;
      }
    }
  }

  // ---- A grown directory ------------------------------------------------------------------------

  /** `e` is `d` with the chain longer by `a`, whose sectors are zeros. */
  ghost predicate Grown(v: Volume, d: Image, e: Image, chain: seq<nat>, a: nat)
    requires v.Holds(d) && chain != []
  {
    && |e| == |d| && v.InRange(a) && v.InRange(chain[|chain| - 1])
    && Fat(v, e, chain[|chain| - 1]) == a && Fat(v, e, a) == END_MARK
    && (forall c: nat | v.InRange(c) && c != a && c != chain[|chain| - 1] :: Fat(v, e, c) == Fat(v, d, c))
    && (forall c: nat, s: nat | Owns(v, c, s) && c != a && s < |d| :: e[s] == d[s])
    && (forall s: nat | Owns(v, a, s) && s < |d| :: e[s] == PadSector([], 0))
  }

  ghost function GrownTree(t: Tree, dir: nat, a: nat): Tree
    requires dir in t.chains
  {
    Tree(t.dirs, t.chains[dir := t.chains[dir] + [a]])
  }

  function FreshSlots(n: nat): seq<Slot> {
    seq(n, _ => seq(32, _ => 0))
  }

  /** The grown chain is a chain, and its slots are the old ones then empty ones. */
  lemma GrownChain(v: Volume, d: Image, e: Image, dir: nat, chain: seq<nat>, a: nat)
    requires v.Holds(d) && chain != [] && IsChain(v, d, dir, chain) && a !in chain && Grown(v, d, e, chain, a)
    ensures v.Holds(e) && IsChain(v, e, dir, chain + [a])
    ensures DirSlots(v, e, chain + [a]) == DirSlots(v, d, chain) + FreshSlots(16 * v.spc)
  {
    hide Owns, Fat, DirSlots;
    GrownHolds(v, d, e, chain, a);
    var all := chain + [a];
    ChainDistinct(v, d, chain);
    forall i | 0 <= i < |all| - 1
      ensures Fat(v, e, all[i]) == all[i + 1]
    {
      if i < |chain| - 1 {
        assert chain[i] != chain[|chain| - 1] && Fat(v, d, chain[i]) == chain[i + 1];
      }
    }
    GrownSlots(v, d, e, chain, a);
  }

  lemma GrownHolds(v: Volume, d: Image, e: Image, chain: seq<nat>, a: nat)
    requires v.Holds(d) && chain != [] && Grown(v, d, e, chain, a)
    ensures v.Holds(e)
  {
  }

  lemma GrownSlots(v: Volume, d: Image, e: Image, chain: seq<nat>, a: nat)
    requires v.Holds(d) && v.Holds(e) && chain != [] && v.AllIn(chain) && a !in chain && Grown(v, d, e, chain, a)
    ensures v.AllIn(chain + [a])
    ensures DirSlots(v, e, chain + [a]) == DirSlots(v, d, chain) + FreshSlots(16 * v.spc)
  {
    hide Owns, Fat, ChainLbas;
    var all := chain + [a];
    ClusterSpan(v, chain, a);
    var lbas, old_ := ChainLbas(v, all), ChainLbas(v, chain);
    var before, after := GatherChain(v, d, chain), GatherChain(v, e, all);
    forall i | 0 <= i < |after|
      ensures after[i] == if i < |before| then before[i] else PadSector([], 0)
    {
      if i < |before| {
        var j := ChainOwner(v, chain, i);
        assert lbas[i] == old_[i];
        assert chain[j] != a;
      } else {
        SpanOwned(v, a, i - |old_|);
        assert lbas[i] == Span(v.Lba(a), v.spc)[i - |old_|] == v.Lba(a) + (i - |old_|);
      }
    }
    forall k | 0 <= k < 16 * |after|
      ensures DirSlots(v, e, all)[k] == (DirSlots(v, d, chain) + FreshSlots(16 * v.spc))[k]
    {
      assert DirSlots(v, e, all)[k] == SlotAt(after[k / 16], k % 16);
    }
    assert DirSlots(v, e, all) == DirSlots(v, d, chain) + FreshSlots(16 * v.spc);
  }

  lemma SpanOwned(v: Volume, a: nat, r: nat)
    requires v.InRange(a) && r < v.spc
    ensures Owns(v, a, v.Lba(a) + r)
  {
  }

  /** Empty slots at the end change nothing that is read. */
  lemma AppendFresh(slots: seq<Slot>, n: nat)
    ensures Items(slots + FreshSlots(n)) == Items(slots)
    ensures Tidy(slots) ==> Tidy(slots + FreshSlots(n))
  {
    hide ReadSlot;
    var all := slots + FreshSlots(n);
    assert all[..|slots|] == slots[..|slots|];
    ScanSame(slots, all, |slots|);
    if n > 0 {
      ReadFree(ScanTo(all, |slots|), all[|slots|], |slots|);
      DoneStays(all, |slots| + 1, |all|);
    }
    if Tidy(slots) {
      forall k | 0 <= k < |all| && IsLong(all[k])
        ensures k + 1 < |all| && !IsFree(all[k + 1])
      {
        assert all[k] == slots[k] && !IsFree(slots[k + 1]);
      }
      forall i, j | 0 <= i <= j < |all| && all[i][0] == 0x00
        ensures all[j][0] == 0x00
      {
        if j < |slots| {
          assert slots[i][0] == 0x00;
        }
      }
    }
  }

  lemma {:induction false} SameListsFind(v: Volume, d: Image, e: Image, t: Tree, path: Path)
    requires WellFormed(v, d, t) && v.Holds(e) && forall g | g in t.dirs :: ListDir(v, e, g) == ListDir(v, d, g)
    ensures v.Holds(d) && Find(v, e, path) == Find(v, d, path)
  {
    hide ListDir, EntriesOk, RefsUnique, ChainsOk;
    if path != [] {
      SameListsFind(v, d, e, t, path[..|path| - 1]);
      FindOk(v, d, t, path[..|path| - 1]);
    }
  }

  /** Growing a directory keeps the volume well formed, and every path reads as
      before. */
  lemma GrowTree(v: Volume, d: Image, e: Image, t: Tree, dir: nat, a: nat)
    requires WellFormed(v, d, t) && dir in t.dirs && dir in t.chains && t.chains[dir] != []
    requires v.InRange(a) && Fat(v, d, a) == 0 && Grown(v, d, e, t.chains[dir], a)
    ensures v.Holds(d) && v.Holds(e)
    ensures WellFormed(v, e, GrownTree(t, dir, a))
    ensures forall path :: Contents(v, e, path) == Contents(v, d, path)
    ensures forall path :: Find(v, e, path) == Find(v, d, path)
  {
    hide Fat, DirItems, EntryOk, Grown, IsChain, FileBytes, NoShare, EntriesOk, RefsUnique;
    var chain, u := t.chains[dir], GrownTree(t, dir, a);
    GrowApart(v, d, t, dir, a);
    assert IsChain(v, d, dir, chain);
    GrownChain(v, d, e, dir, chain, a);
    AppendFresh(DirSlots(v, d, chain), 16 * v.spc);
    GrownItems(v, d, e, chain, a);
    forall f | f in u.chains
      ensures u.chains[f] != [] && IsChain(v, e, f, u.chains[f]) && ItemsIn(v, e, u, f) == ItemsIn(v, d, t, f)
    {
      if f != dir {
        GrowOther(v, d, e, t, dir, a, f);
      }
    }
    GrowEntries(v, d, e, t, dir, a);
    forall g | g in t.dirs
      ensures ListDir(v, e, g) == ListDir(v, d, g)
    {
      ListDirIs(v, d, t, g);
      ListDirIs(v, e, u, g);
    }
    forall path
      ensures Contents(v, e, path) == Contents(v, d, path) && Find(v, e, path) == Find(v, d, path)
    {
      SameListsFind(v, d, e, t, path);
      GrowNode(v, d, e, t, dir, a, path);
    }
  }

  lemma GrownItems(v: Volume, d: Image, e: Image, chain: seq<nat>, a: nat)
    requires v.Holds(d) && v.Holds(e)
    requires DirSlots(v, e, chain + [a]) == DirSlots(v, d, chain) + FreshSlots(16 * v.spc)
    ensures DirItems(v, e, chain + [a]) == DirItems(v, d, chain)
  {
    hide DirSlots, Items;
    AppendFresh(DirSlots(v, d, chain), 16 * v.spc);
  }

  /** A free cluster is in no chain in use; adding it to one keeps them apart. */
  lemma GrowApart(v: Volume, d: Image, t: Tree, dir: nat, a: nat)
    requires WellFormed(v, d, t) && dir in t.chains && v.InRange(a) && Fat(v, d, a) == 0
    ensures forall f | f in t.chains :: a !in t.chains[f]
    ensures var u := GrownTree(t, dir, a);
            forall f, g | f in u.chains && g in u.chains && f != g :: NoShare(u.chains[f], u.chains[g])
  {
    hide EntriesOk, RefsUnique, Fat, IsChain;
    forall f | f in t.chains
      ensures a !in t.chains[f]
    {
      if a in t.chains[f] {
        assert Owned(t, a);
        OwnedNotFree(v, d, t, a);
      }
    }
    var u := GrownTree(t, dir, a);
    forall f, g | f in u.chains && g in u.chains && f != g
      ensures NoShare(u.chains[f], u.chains[g])
    {
      assert NoShare(t.chains[f], t.chains[g]);
    }
  }

  lemma GrowOther(v: Volume, d: Image, e: Image, t: Tree, dir: nat, a: nat, f: nat)
    requires WellFormed(v, d, t) && dir in t.chains && t.chains[dir] != [] && f in t.chains && f != dir
    requires a !in t.chains[f] && Grown(v, d, e, t.chains[dir], a)
    ensures v.Holds(e) && IsChain(v, e, f, t.chains[f]) && ItemsIn(v, e, t, f) == ItemsIn(v, d, t, f)
    ensures IsChain(v, d, f, t.chains[f]) && ChainOf(v, e, f) == Some(t.chains[f])
    ensures ChainOf(v, d, f) == Some(t.chains[f])
    ensures Bytes(v, e, t.chains[f]) == Bytes(v, d, t.chains[f])
  {
    hide EntriesOk, RefsUnique, DirItems, Fat, Owns, Bytes;
    var chain := t.chains[dir];
    GrownHolds(v, d, e, chain, a);
    assert NoShare(t.chains[f], chain) && chain[|chain| - 1] in chain;
    assert Agree(v, d, e, {a, chain[|chain| - 1]});
    SameChain(v, d, e, f, t.chains[f], {a, chain[|chain| - 1]});
  }

  lemma GrowEntries(v: Volume, d: Image, e: Image, t: Tree, dir: nat, a: nat)
    requires WellFormed(v, d, t) && v.Holds(e) && dir in t.dirs && dir in t.chains
    requires var u := GrownTree(t, dir, a); forall f | f in u.chains :: ItemsIn(v, e, u, f) == ItemsIn(v, d, t, f)
    ensures EntriesOk(v, e, GrownTree(t, dir, a)) && RefsUnique(v, e, GrownTree(t, dir, a))
  {
    hide DirItems, ChainsOk, ChainLbas;
  }

  lemma GrowNode(v: Volume, d: Image, e: Image, t: Tree, dir: nat, a: nat, path: Path)
    requires WellFormed(v, d, t) && v.Holds(e) && dir in t.dirs && dir in t.chains && t.chains[dir] != []
    requires (forall f | f in t.chains :: a !in t.chains[f]) && Grown(v, d, e, t.chains[dir], a)
    ensures NodeAt(v, e, Find(v, d, path)) == NodeAt(v, d, Find(v, d, path))
  {
    hide EntriesOk, RefsUnique, ChainsOk, DirItems, Grown, IsChain, ChainLbas, ChainOf, Bytes;
    var at := Find(v, d, path);
    FindOk(v, d, t, path);
    if at.Some? && !at.value.directory {
      FindFile(v, d, path);
      if at.value.cluster != 0 {
        GrowOther(v, d, e, t, dir, a, at.value.cluster);
      }
    }
  }
}
