/** The first half of every allocating write: sectors of free
    clusters, then the FAT entries that link them. */
module FatPrepare {
  import opened Base
  import opened Blocks
  import opened FatLayout
  import opened FatChain
  import opened FatData
  import opened FatTree
  import opened FatFrame
  import opened FatTables
  import opened FatFree
  import opened FatSlots
  import opened FatSwitch

  /** The writes `w` stored `data` on `chain`: clusters that were free, now
      linked and ended, nothing else changed, at no point. */
  ghost predicate Prepared(v: Volume, d: Image, chain: seq<nat>, data: seq<byte>, w: seq<Event>)
    requires v.Holds(d)
  {
    var e := Replay(d, w);
    && AgreeAll(v, d, w, Elements(chain))
    && v.AllIn(chain) && Distinct(chain) && (forall i | 0 <= i < |chain| :: Fat(v, d, chain[i]) == 0)
    && v.Holds(e)
    && (forall c: nat | v.InRange(c) :: Fat(v, e, c) == View(v, d, Links(chain), c))
    && |data| <= |Bytes(v, e, chain)| && Bytes(v, e, chain)[..|data|] == data
    && GatherChain(v, e, chain) == Padded(data, |ChainLbas(v, chain)|)
    && (CopiesEqual(v, d) ==> CopiesEqual(v, e))
    && FsCount(v, e) == FsCount(v, d)
    && FreeSet(v, e) == FreeSet(v, d) - Elements(chain)
  }

  /** Writes to a chain's clusters leave the sectors before the data alone. */
  lemma PutsHead(v: Volume, d: Image, chain: seq<nat>, data: seq<byte>)
    requires v.Holds(d) && v.AllIn(chain) && Distinct(chain)
    ensures var lbas := ChainLbas(v, chain);
            var w := Puts(lbas, Padded(data, |lbas|));
            && SameHead(v, d, Replay(d, w)) && AgreeAll(v, d, w, Elements(chain)) && v.Holds(Replay(d, w))
            && GatherChain(v, Replay(d, w), chain) == Padded(data, |lbas|)
  {
    hide ChainLbas, Replay, Padded, Owns;
    var lbas := ChainLbas(v, chain);
    var w := Puts(lbas, Padded(data, |lbas|));
    LbasInside(v, d, chain);
    forall i | 0 <= i < |w|
      ensures exists c: nat :: c in Elements(chain) && Owns(v, c, w[i].lba)
    {
      var j := ChainOwner(v, chain, i);
      assert chain[j] in Elements(chain);
    }
    PutsAgree(v, d, w, Elements(chain));
    forall s | 0 <= s < |d| && s < v.dataStart
      ensures Replay(d, w)[s] == d[s]
    {
      ReplayUntouched(d, w, s);
    }
    ChainLbasDistinct(v, chain);
    ReplayPuts(d, lbas, Padded(data, |lbas|));
    assert v.Holds(Replay(d, w));
    assert GatherChain(v, Replay(d, w), chain) == Padded(data, |lbas|);
  }

  /** A table read from `d` is as good for an image with the same FATs. */
  lemma CacheFrame(v: Volume, d: Image, e: Image, cache: seq<Cached>, changes: map<nat, nat>)
    requires v.Holds(d) && v.Holds(e) && SameHead(v, d, e) && CacheOk(v, d, cache, changes)
    ensures CacheOk(v, e, cache, changes)
  {
    hide DirtyIn, Patched;
    forall i | 0 <= i < |cache|
      ensures CachedOk(v, e, cache[i], changes)
    {
      assert CachedOk(v, d, cache[i], changes);
      assert e[v.fatStart + cache[i].index] == d[v.fatStart + cache[i].index];
    }
  }

  /** The entry of cluster `i` of a chain. */
  function NextIn(chain: seq<nat>, i: nat): nat
    requires i < |chain|
  {
    if i + 1 < |chain| then chain[i + 1] else END_MARK
  }

  lemma LinksAt(chain: seq<nat>)
    requires Distinct(chain)
    ensures Links(chain).Keys == Elements(chain)
    ensures forall i | 0 <= i < |chain| :: Links(chain)[chain[i]] == NextIn(chain, i)
  {
    LinkSomeAt(chain, |chain|);
    assert chain[..|chain|] == chain;
  }

  /** Data then FAT: together they prepare the chain. */
  lemma PreparedBy(v: Volume, d: Image, chain: seq<nat>, data: seq<byte>, cache: seq<Cached>)
    requires v.Holds(d) && v.fats > 0 && v.AllIn(chain) && Distinct(chain)
    requires forall i | 0 <= i < |chain| :: Fat(v, d, chain[i]) == 0
    requires CacheOk(v, d, cache, Links(chain)) && |data| <= 512 * |ChainLbas(v, chain)|
    ensures var lbas := ChainLbas(v, chain);
            Prepared(v, d, chain, data, Puts(lbas, Padded(data, |lbas|)) + FlushLog(v, cache))
  {
    hide ChainLbas, Replay, FlushLog, Padded, Agree, AgreeAll, CacheOk, CopiesEqual, Fat, FreeSet, FsCount, Puts,
      Rewired, SameHead;
    var lbas := ChainLbas(v, chain);
    var w1, w2 := Puts(lbas, Padded(data, |lbas|)), FlushLog(v, cache);
    var mid := Replay(d, w1);
    PutsHead(v, d, chain, data);
    CacheFrame(v, d, mid, cache, Links(chain));
    FlushRewired(v, mid, cache, Links(chain));
    LinksAt(chain);
    ReplayConcat(d, w1, w2);
    var e := Replay(mid, w2);
    AgreeThen(v, d, w1, w2, Elements(chain), Elements(chain));
    assert Elements(chain) + Elements(chain) == Elements(chain);
    SameHeadFat(v, d, mid);
    RewiredData(v, mid, e, chain, Links(chain));
    PaddedFlat(data, |lbas|);
    RewiredRest(v, d, mid, e, chain);
  }

  /** A flush moves no data. */
  lemma RewiredData(v: Volume, d: Image, e: Image, chain: seq<nat>, changes: map<nat, nat>)
    requires v.Holds(d) && v.AllIn(chain) && Rewired(v, d, e, changes)
    ensures v.Holds(e) && GatherChain(v, e, chain) == GatherChain(v, d, chain)
    ensures FsCount(v, e) == FsCount(v, d)
  {
    hide ChainLbas, Fat, CopiesEqual, SectorCount;
    LbasInside(v, d, chain);
    assert v.Holds(e);
    assert GatherChain(v, e, chain) == GatherChain(v, d, chain);
  }

  lemma RewiredRest(v: Volume, d: Image, mid: Image, e: Image, chain: seq<nat>)
    requires v.Holds(d) && v.Holds(mid) && v.Holds(e) && v.AllIn(chain) && Distinct(chain)
    requires (forall c: nat | v.InRange(c) :: Fat(v, mid, c) == Fat(v, d, c)) && Rewired(v, mid, e, Links(chain))
    requires forall i | 0 <= i < |chain| :: Fat(v, d, chain[i]) == 0
    ensures forall c: nat | v.InRange(c) :: Fat(v, e, c) == View(v, d, Links(chain), c)
    ensures FreeSet(v, e) == FreeSet(v, d) - Elements(chain)
    ensures CopiesEqual(v, mid) ==> CopiesEqual(v, e)
  {
    hide Fat, CopiesEqual, Links;
    LinksAt(chain);
    forall c: nat | v.InRange(c)
      ensures Fat(v, e, c) == View(v, d, Links(chain), c)
      ensures c in FreeSet(v, e) <==> c in FreeSet(v, d) - Elements(chain)
    {
      assert Fat(v, e, c) == View(v, mid, Links(chain), c);
      if c in Elements(chain) {
        var i :| 0 <= i < |chain| && chain[i] == c;
        assert Links(chain)[c] == NextIn(chain, i);
        assert i + 1 < |chain| ==> v.InRange(chain[i + 1]);
      }
    }
  }

  /** A prepared chain is new: no chain in use shares a cluster with it. */
  lemma PreparedNew(v: Volume, d: Image, t: Tree, chain: seq<nat>, data: seq<byte>, w: seq<Event>)
    requires WellFormed(v, d, t) && v.Holds(d) && Prepared(v, d, chain, data, w)
    ensures Untouched(t, Elements(chain))
    ensures v.Holds(Replay(d, w)) && NewChain(v, Replay(d, w), t, if chain == [] then 0 else chain[0], chain)
  {
    hide EntriesOk, RefsUnique, ChainsOk, Replay, Fat, AgreeAll, GatherChain, CopiesEqual, Bytes, Links;
    forall f, c | f in t.chains && c in t.chains[f]
      ensures c !in Elements(chain)
    {
      assert Owned(t, c);
      OwnedNotFree(v, d, t, c);
    }
    LinksAt(chain);
    if chain != [] {
      PreparedLinked(v, d, chain, Replay(d, w));
    }
  }

  lemma PreparedLinked(v: Volume, d: Image, chain: seq<nat>, e: Image)
    requires v.Holds(d) && v.Holds(e) && v.AllIn(chain) && Distinct(chain) && chain != []
    requires forall c: nat | v.InRange(c) :: Fat(v, e, c) == View(v, d, Links(chain), c)
    ensures IsChain(v, e, chain[0], chain)
  {
    hide Fat, Links;
    LinksAt(chain);
    forall c | c in Elements(chain)
      ensures Fat(v, e, c) == Links(chain)[c]
    {
      assert Fat(v, e, c) == View(v, d, Links(chain), c);
    }
    var last := |chain| - 1;
    assert chain[last] in Elements(chain) && Links(chain)[chain[last]] == END_MARK;
    forall i | 0 <= i < last
      ensures Fat(v, e, chain[i]) == chain[i + 1]
    {
      assert chain[i] in Elements(chain) && Links(chain)[chain[i]] == chain[i + 1];
    }
  }

  /** The data into clusters just allocated, then their entries into every FAT. */
  method Store(v: Volume, disk: Disk, table: FatTable, chain: seq<nat>, data: seq<byte>) returns (ghost w: seq<Event>)
    requires table.Valid(v, disk.sectors) && v.fats > 0 && table.changes == Links(chain)
    requires chain <= FreeFrom(v, disk.sectors, 2) && |data| <= 512 * Times(|chain|, v.spc)
    modifies disk, table
    ensures Went(old(disk.sectors), old(disk.log), disk.sectors, disk.log, w)
    ensures Prepared(v, old(disk.sectors), chain, data, w)
  {
    hide Replay, Prepared, Padded, Puts, ChainLbas, FlushLog, CacheOk;
    ghost var d, log := disk.sectors, disk.log;
    FreeFromIs(v, d, 2);
    FirstFree(v, d, |chain|);
    ChainLbasLength(v, chain);
    PreparedBy(v, d, chain, data, table.sectors);
    WriteClusters(v, disk, chain, data);
    ghost var mid, log1, cache := disk.sectors, disk.log, table.sectors;
    PutsHead(v, d, chain, data);
    CacheFrame(v, d, mid, cache, Links(chain));
    table.Flush(v, disk);
    ghost var lbas := ChainLbas(v, chain);
    w := Puts(lbas, Padded(data, |lbas|)) + FlushLog(v, cache);
    WentOn(d, log, mid, log1, Puts(lbas, Padded(data, |lbas|)), disk.sectors, disk.log, FlushLog(v, cache));
  }

  /** The data of a new file, stored on the first `count` free clusters; None,
      nothing written, when fewer are free. */
  method Prepare(v: Volume, disk: Disk, count: nat, data: seq<byte>) returns (r: Option<seq<nat>>, ghost w: seq<Event>)
    requires v.Holds(disk.sectors) && v.fats > 0 && |data| <= 512 * Times(count, v.spc)
    modifies disk
    ensures Went(old(disk.sectors), old(disk.log), disk.sectors, disk.log, w)
    ensures var free := FreeFrom(v, old(disk.sectors), 2);
            r == if count <= |free| then Some(free[..count]) else None
    ensures r.Some? ==> Prepared(v, old(disk.sectors), r.value, data, w)
    ensures r.None? ==> w == []
  {
    hide Replay, Prepared, FreeFrom, Times;
    WentNone(disk.sectors, disk.log);
    TableNone(v, disk.sectors);
    var table := new FatTable();
    r := Allocate(v, disk, table, count);
    w := [];
    if r.Some? {
      w := Store(v, disk, table, r.value, data);
    }
  }

  lemma TableNone(v: Volume, d: Image)
    requires v.Holds(d)
    ensures CacheOk(v, d, [], map[])
  {
  }

  lemma FirstFree(v: Volume, d: Image, count: nat)
    requires v.Holds(d) && count <= |FreeFrom(v, d, 2)|
    ensures var chain := FreeFrom(v, d, 2)[..count];
            v.AllIn(chain) && Distinct(chain) && forall i | 0 <= i < |chain| :: Fat(v, d, chain[i]) == 0
  {
    hide Fat, FreeFrom;
    FreeFromIs(v, d, 2);
  }
}
