/** Growing a directory on the disk, and what a stop half-way leaves: safe
    exactly when the FAT sector of its last cluster does not come before the
    one of the cluster added. */
module FatExtend {
  import opened Base
  import opened Blocks
  import opened FatLayout
  import opened FatData
  import opened FatTables
  import opened FatFree
  import opened FatSlots
  import opened FatGrow
  import opened FatPrepare

  /** The entries growth sets: the added cluster ends the chain, the last one
      leads to it. */
  ghost function GrowChanges(last: nat, a: nat): map<nat, nat> {
    map[a := END_MARK, last := a]
  }

  /** A cache for growth: FAT sectors in order up to the added cluster's, then
      possibly the last cluster's. */
  ghost predicate GrowCache(v: Volume, d: Image, cache: seq<Cached>, last: nat, a: nat)
    requires v.Holds(d)
  {
    && CacheOk(v, d, cache, GrowChanges(last, a))
    && a != last && v.InRange(a) && v.InRange(last)
    && a / 128 < |cache| && cache[a / 128].index == a / 128
    && (forall i | 0 <= i < |cache| :: cache[i].index == i || (i == |cache| - 1 && cache[i].index > i))
  }

  lemma GrowCacheIs(v: Volume, d: Image, before: seq<Cached>, cache: seq<Cached>, last: nat, a: nat)
    requires v.Holds(d) && CacheOk(v, d, cache, GrowChanges(last, a)) && a != last && v.InRange(a) && v.InRange(last)
    requires Ascending(before) && a / 128 < |before| && |before| <= |cache|
    requires forall i | 0 <= i < |before| :: cache[i].index == before[i].index
    requires |cache| == if exists i :: 0 <= i < |before| && before[i].index == last / 128
                        then |before| else |before| + 1
    ensures GrowCache(v, d, cache, last, a)
  {
    hide CachedOk;
    assert last in GrowChanges(last, a) && DirtyIn(cache, last / 128);
    var i :| 0 <= i < |cache| && cache[i].index == last / 128 && cache[i].dirty;
    assert last / 128 < |before| ==> before[last / 128].index == last / 128;
    assert i < |before| ==> before[i].index == last / 128;
  }

  lemma CachePlace(v: Volume, d: Image, cache: seq<Cached>, last: nat, a: nat, c: nat) returns (i: nat)
    requires v.Holds(d) && GrowCache(v, d, cache, last, a) && (c == a || c == last)
    ensures i < |cache| && cache[i].index == c / 128 && cache[i].dirty && CachedOk(v, d, cache[i], GrowChanges(last, a))
    ensures c / 128 < a / 128 ==> i == c / 128
    ensures c == a && last / 128 < a / 128 ==> last / 128 < i
    ensures c == last && a / 128 < last / 128 ==> a / 128 < i
    ensures c == a && a / 128 < last / 128 ==> i == a / 128
  {
    hide CachedOk;
    assert c in GrowChanges(last, a);
    assert DirtyIn(cache, c / 128);
    i :| 0 <= i < |cache| && cache[i].index == c / 128 && cache[i].dirty;
    assert CachedOk(v, d, cache[i], GrowChanges(last, a));
    GrowFirst(v, d, cache, last, a, i, c);
  }

  lemma GrowFirst(v: Volume, d: Image, cache: seq<Cached>, last: nat, a: nat, i: nat, c: nat)
    requires v.Holds(d) && GrowCache(v, d, cache, last, a) && (c == a || c == last)
    requires i < |cache| && cache[i].index == c / 128
    ensures i <= c / 128
    ensures c == last && a / 128 < last / 128 ==> a / 128 < i
    ensures c == a && last / 128 < a / 128 ==> last / 128 < i
    ensures c / 128 < a / 128 || (c == a && a / 128 < last / 128) ==> i == c / 128
  {
    hide CachedOk, DirtyIn;
  }

  /** The image after the writes of the data and `k` of the flush. */
  lemma MidFlush(v: Volume, d: Image, cache: seq<Cached>, chain: seq<nat>, last: nat, a: nat, k: nat)
    requires v.Holds(d) && v.fats > 0 && GrowCache(v, d, cache, last, a) && k <= |FlushLog(v, cache)|
    requires last / 128 >= a / 128
    ensures var e := Replay(d, FlushLog(v, cache)[..k]);
            || (forall c: nat | v.InRange(c) && c != a :: Fat(v, e, c) == Fat(v, d, c))
            || (forall c: nat | v.InRange(c) :: Fat(v, e, c) == View(v, d, GrowChanges(last, a), c))
  {
    hide FlushLog, CachedOk, DirtyIn, Fat, Patched, Owns;
    var w, changes := FlushLog(v, cache), GrowChanges(last, a);
    var e := Replay(d, w[..k]);
    FlushAgree(v, d, cache, changes);
    assert Agree(v, d, e, changes.Keys);
    FlushSector(v, d, cache, changes, k, last / 128);
    if e[v.fatStart + last / 128] == d[v.fatStart + last / 128] {
      FatOfSector(v, d, e, last);
    } else {
      PatchedFat(v, d, e, changes, last);
      var j := CachePlace(v, d, cache, last, a, last);
      var i := CachePlace(v, d, cache, last, a, a);
      if a / 128 != last / 128 {
        FlushOrder(v, d, cache, changes, k, i, j);
        CachedPatched(v, d, cache[i], changes);
      }
      PatchedFat(v, d, e, changes, a);
    }
  }

  lemma CachedPatched(v: Volume, d: Image, cached: Cached, changes: map<nat, nat>)
    requires v.Holds(d) && Sane(v, changes) && CachedOk(v, d, cached, changes)
    ensures cached.index < v.fatSize && Patched(v, d[v.fatStart + cached.index], cached.bytes, cached.index, changes)
  {
  }

  lemma FatOfSector(v: Volume, d: Image, e: Image, c: nat)
    requires v.Holds(d) && |e| == |d| && v.InRange(c) && e[v.fatStart + c / 128] == d[v.fatStart + c / 128]
    ensures Fat(v, e, c) == Fat(v, d, c)
  {
  }

  // ---- The whole growth -------------------------------------------------------------------------

  ghost function ZeroPuts(v: Volume, a: nat): seq<Event> {
    var lbas := ChainLbas(v, [a]);
    Puts(lbas, Padded([], |lbas|))
  }

  /** The writes of a growth: zeros, FAT entries, FSInfo's count. */
  ghost function GrowLog(v: Volume, d: Image, a: nat, cache: seq<Cached>): seq<Event>
    requires v.Holds(d)
  {
    var w1, w2 := ZeroPuts(v, a), FlushLog(v, cache);
    w1 + w2 + AdjustLog(v, Replay(Replay(d, w1), w2), -1)
  }

  lemma ZeroPutsIs(v: Volume, d: Image, a: nat)
    requires v.Holds(d) && v.InRange(a)
    ensures var e := Replay(d, ZeroPuts(v, a));
            && SameHead(v, d, e) && AgreeAll(v, d, ZeroPuts(v, a), {a}) && v.Holds(e)
            && (forall s: nat | Owns(v, a, s) && s < |d| :: e[s] == PadSector([], 0))
            && (forall c: nat | v.InRange(c) :: Fat(v, e, c) == Fat(v, d, c))
            && FsCount(v, e) == FsCount(v, d) && (CopiesEqual(v, d) ==> CopiesEqual(v, e))
                && FreeSet(v, e) == FreeSet(v, d)
  {
    hide ChainLbas, Fat, AgreeAll, CopiesEqual, FsCount, FreeSet, SameHead, Replay;
    PutsHead(v, d, [a], []);
    assert Elements([a]) == {a};
    var e := Replay(d, ZeroPuts(v, a));
    SameHeadFat(v, d, e);
    ClusterSpan(v, [], a);
    assert ChainLbas(v, []) == [] by {
      ChainLbasLength(v, []);
    }
    assert [] + [a] == [a];
    forall s: nat | Owns(v, a, s) && s < |d|
      ensures e[s] == PadSector([], 0)
    {
      var r := s - v.Lba(a);
      assert ChainLbas(v, [a])[r] == s;
      assert GatherChain(v, e, [a])[r] == Padded([], |ChainLbas(v, [a])|)[r];
    }
  }

  /** `e` differs from `d` in nothing but free cluster `a`, or it has grown. */
  ghost predicate GrowStep(v: Volume, d: Image, e: Image, chain: seq<nat>, a: nat)
    requires v.Holds(d) && chain != []
  {
    Agree(v, d, e, {a}) || Grown(v, d, e, chain, a)
  }

  /** From `mid`, which is `d` with `a` zeroed, an image with the same data and
      the entries of a growth has grown. */
  lemma GrownFrom(v: Volume, d: Image, mid: Image, e: Image, chain: seq<nat>, a: nat)
    requires v.Holds(d) && chain != [] && v.AllIn(chain) && a !in chain && v.InRange(a)
    requires Agree(v, d, mid, {a}) && v.Holds(mid) && |e| == |mid|
    requires forall c: nat | v.InRange(c) :: Fat(v, mid, c) == Fat(v, d, c)
    requires forall s: nat | Owns(v, a, s) && s < |d| :: mid[s] == PadSector([], 0)
    requires forall s: nat | s < |d| && v.dataStart <= s :: e[s] == mid[s]
    requires forall c: nat | v.InRange(c) :: Fat(v, e, c) == View(v, mid, GrowChanges(chain[|chain| - 1], a), c)
    ensures Grown(v, d, e, chain, a)
  {
    hide Fat, Owns;
    var last := chain[|chain| - 1];
    assert v.InRange(last);
    forall c: nat, s: nat | Owns(v, c, s) && s < |d|
      ensures e[s] == mid[s]
    {
      OwnedInside(v, d, c, s);
    }
  }

  lemma FlushData(v: Volume, d: Image, cache: seq<Cached>, changes: map<nat, nat>, k: nat)
    requires v.Holds(d) && CacheOk(v, d, cache, changes) && k <= |FlushLog(v, cache)|
    ensures var e := Replay(d, FlushLog(v, cache)[..k]);
            forall s: nat | s < |d| && v.dataStart <= s :: e[s] == d[s]
  {
    hide FlushLog;
    var w := FlushLog(v, cache);
    forall s: nat | s < |d| && v.dataStart <= s
      ensures Replay(d, w[..k])[s] == d[s]
    {
      FlushBelow(v, d, cache, s);
      ReplayUntouched(d, w[..k], s);
    }
  }

  /** Mid-flush, the directory has grown or nothing in use has moved. */
  lemma FlushStep(v: Volume, d: Image, mid: Image, cache: seq<Cached>, chain: seq<nat>, a: nat, k: nat)
    requires v.Holds(d) && v.fats > 0 && chain != [] && v.AllIn(chain) && a !in chain && v.InRange(a)
    requires Agree(v, d, mid, {a}) && v.Holds(mid)
    requires forall c: nat | v.InRange(c) :: Fat(v, mid, c) == Fat(v, d, c)
    requires forall s: nat | Owns(v, a, s) && s < |d| :: mid[s] == PadSector([], 0)
    requires GrowCache(v, mid, cache, chain[|chain| - 1], a) && k <= |FlushLog(v, cache)|
    requires chain[|chain| - 1] / 128 >= a / 128
    ensures GrowStep(v, d, Replay(mid, FlushLog(v, cache)[..k]), chain, a)
  {
    hide FlushLog, Fat, Owns, Grown, CachedOk, DirtyIn, Indexed, Replay;
    var last := chain[|chain| - 1];
    var e := Replay(mid, FlushLog(v, cache)[..k]);
    MidFlush(v, mid, cache, chain, last, a, k);
    FlushData(v, mid, cache, GrowChanges(last, a), k);
    if forall c: nat | v.InRange(c) && c != a :: Fat(v, e, c) == Fat(v, mid, c) {
      forall c: nat, s: nat | Owns(v, c, s) && c != a && s < |d|
        ensures e[s] == d[s]
      {
        OwnedInside(v, d, c, s);
        assert e[s] == mid[s];
      }
      assert Agree(v, d, e, {a});
    } else {
      GrownFrom(v, d, mid, e, chain, a);
    }
  }

  /** The writes of a growth end with the directory grown and the count moved,
      and go through nothing unsound on the way when the order is safe. */
  ghost predicate GrewBy(v: Volume, d: Image, chain: seq<nat>, a: nat, w: seq<Event>)
    requires v.Holds(d) && chain != []
  {
    var e := Replay(d, w);
    && v.Holds(e) && Grown(v, d, e, chain, a)
    && (chain[|chain| - 1] / 128 >= a / 128 ==> forall k | 0 <= k <= |w| :: GrowStep(v, d, Replay(d, w[..k]), chain, a))
    && (CopiesEqual(v, d) ==> CopiesEqual(v, e))
    && FsCount(v, e) == Moved(FsCount(v, d), -1, v.clusters)
  }

  lemma GrewAll(v: Volume, d: Image, chain: seq<nat>, a: nat, cache: seq<Cached>)
    requires v.Holds(d) && v.fats > 0 && chain != [] && v.AllIn(chain) && a !in chain && v.InRange(a)
    requires GrowCache(v, d, cache, chain[|chain| - 1], a)
    ensures GrewBy(v, d, chain, a, GrowLog(v, d, a, cache))
  {
    hide FlushLog, Fat, Owns, Grown, CachedOk, DirtyIn, Indexed, Replay, ZeroPuts, AdjustLog, Agree, AgreeAll,
      CopiesEqual, FsCount, FreeSet, SameHead, Rewired;
    var last := chain[|chain| - 1];
    var w1, w2 := ZeroPuts(v, a), FlushLog(v, cache);
    var mid := Replay(d, w1);
    ZeroPutsIs(v, d, a);
    AgreeEnd(v, d, w1, {a});
    CacheFrame(v, d, mid, cache, GrowChanges(last, a));
    var e := Replay(mid, w2);
    FlushRewired(v, mid, cache, GrowChanges(last, a));
    RewiredIs(v, mid, e, GrowChanges(last, a));
    FlushData(v, mid, cache, GrowChanges(last, a), |w2|);
    assert w2[..|w2|] == w2;
    GrownFrom(v, d, mid, e, chain, a);
    var w3 := AdjustLog(v, e, -1);
    assert w3[..|w3|] == w3;
    AdjustEffect(v, e, -1);
    ReplayConcat(d, w1, w2);
    ReplayConcat(d, w1 + w2, w3);
    GrownStays(v, d, e, Replay(e, w3), chain, a, w3, |w3|);
    if last / 128 >= a / 128 {
      forall k | 0 <= k <= |w1 + w2 + w3|
        ensures GrowStep(v, d, Replay(d, (w1 + w2 + w3)[..k]), chain, a)
      {
        PrefixSplit(d, w1 + w2, w3, k);
        if k <= |w1| {
          PrefixSplit(d, w1, w2, k);
          AgreeAt(v, d, w1, {a}, k);
        } else if k <= |w1 + w2| {
          PrefixSplit(d, w1, w2, k);
          FlushStep(v, d, mid, cache, chain, a, k - |w1|);
        } else {
          GrownStays(v, d, e, Replay(e, w3[..k - |w1 + w2|]), chain, a, w3, k - |w1 + w2|);
        }
      }
    }
  }

  lemma AgreeAt(v: Volume, d: Image, w: seq<Event>, touched: set<nat>, k: nat)
    requires v.Holds(d) && AgreeAll(v, d, w, touched) && k <= |w|
    ensures Agree(v, d, Replay(d, w[..k]), touched)
  {
  }

  lemma RewiredIs(v: Volume, d: Image, e: Image, changes: map<nat, nat>)
    requires v.Holds(d) && Rewired(v, d, e, changes)
    ensures |e| == |d| && v.Holds(e) && FsCount(v, e) == FsCount(v, d) && (CopiesEqual(v, d) ==> CopiesEqual(v, e))
    ensures forall c: nat | v.InRange(c) :: Fat(v, e, c) == View(v, d, changes, c)
  {
    hide Fat, CopiesEqual, SectorCount;
  }

  /** FSInfo's count is no part of what has grown. */
  lemma GrownStays(v: Volume, d: Image, e: Image, f: Image, chain: seq<nat>, a: nat, w: seq<Event>, k: nat)
    requires v.Holds(d) && chain != [] && Grown(v, d, e, chain, a) && v.Holds(e)
    requires AgreeAll(v, e, w, {}) && k <= |w| && f == Replay(e, w[..k])
    ensures Grown(v, d, f, chain, a) && GrowStep(v, d, f, chain, a) && v.Holds(f)
    ensures k == |w| ==> Replay(e, w) == f
  {
    hide Fat, Owns, Replay, AgreeAll;
    AgreeAt(v, e, w, {}, k);
    assert w[..|w|] == w;
  }

  lemma CutFront<T>(a: seq<T>, b: seq<T>, c: seq<T>, front: seq<T>)
    requires front <= b
    ensures (a + b + c)[..|a| + |front|] == a + front
  {
    assert b[..|front|] == front;
  }

  lemma FlushUnsafe(v: Volume, d: Image, cache: seq<Cached>, last: nat, a: nat) returns (front: seq<Event>)
    requires v.Holds(d) && v.fats > 0 && GrowCache(v, d, cache, last, a) && last / 128 < a / 128
    ensures front <= FlushLog(v, cache)
    ensures var e := Replay(d, front);
            v.Holds(e) && Fat(v, e, last) == a && Fat(v, e, a) == Fat(v, d, a) && Agree(v, d, e, {a, last})
  {
    hide FlushLog, Fat, CachedOk, DirtyIn, Replay, Patched, Agree;
    var changes := GrowChanges(last, a);
    var i := CachePlace(v, d, cache, last, a, last);
    var j := CachePlace(v, d, cache, last, a, a);
    front := FlushLog(v, cache[..j]);
    FlushPrefix(v, cache, j);
    var e := Replay(d, front);
    FlushFinal(v, d, cache[..j], i, 0);
    assert FatLba(v, 0, last / 128) == v.fatStart + last / 128;
    CachedPatched(v, d, cache[i], changes);
    PatchedFat(v, d, e, changes, last);
    FlushMisses(v, cache[..j], a / 128);
    ReplayUntouched(d, front, v.fatStart + a / 128);
    FatOfSector(v, d, e, a);
    FlushAgree(v, d, cache, changes);
    AgreeAt(v, d, FlushLog(v, cache), changes.Keys, |front|);
    assert changes.Keys == {a, last} && FlushLog(v, cache)[..|front|] == front;
  }

  /** When the last cluster's FAT sector comes first, a stop between the two
      leaves the directory's chain leading to a cluster that is still free. */
  lemma GrowUnsafe(v: Volume, d: Image, cache: seq<Cached>, last: nat, a: nat) returns (k: nat)
    requires v.Holds(d) && v.fats > 0 && GrowCache(v, d, cache, last, a) && last / 128 < a / 128 && Fat(v, d, a) == 0
    ensures k <= |GrowLog(v, d, a, cache)|
    ensures var e := Replay(d, GrowLog(v, d, a, cache)[..k]);
            v.Holds(e) && Fat(v, e, last) == a && Fat(v, e, a) == 0 && Agree(v, d, e, {a, last})
  {
    hide FlushLog, Fat, CachedOk, DirtyIn, Replay, ZeroPuts, AdjustLog, AgreeAll, Agree, CopiesEqual, FsCount, FreeSet,
      SameHead, Owns;
    var w1, w2 := ZeroPuts(v, a), FlushLog(v, cache);
    var mid := Replay(d, w1);
    ZeroPutsIs(v, d, a);
    CacheFrame(v, d, mid, cache, GrowChanges(last, a));
    var front := FlushUnsafe(v, mid, cache, last, a);
    k := |w1| + |front|;
    var all := GrowLog(v, d, a, cache);
    CutFront(w1, w2, all[|w1 + w2|..], front);
    assert all == w1 + w2 + all[|w1 + w2|..];
    ReplayConcat(d, w1, front);
    AgreeEnd(v, d, w1, {a});
    AgreeTrans(v, d, mid, Replay(mid, front), {a}, {a, last});
    assert {a} + {a, last} == {a, last};
  }

  /** The first free cluster, which the log of `GrowLog` wipes, links after the last
      of `chain` and counts. None, nothing written, when none is free. */
  method Grow(v: Volume, disk: Disk, chain: seq<nat>) returns (r: Option<nat>, ghost w: seq<Event>,
      ghost cache: seq<Cached>)
    requires v.Holds(disk.sectors) && v.fats > 0 && chain != [] && v.AllIn(chain)
    requires Fat(v, disk.sectors, chain[|chain| - 1]) != 0
    modifies disk
    ensures Went(old(disk.sectors), old(disk.log), disk.sectors, disk.log, w)
    ensures var free := FreeFrom(v, old(disk.sectors), 2); r == if free == [] then None else Some(free[0])
    ensures r.None? ==> w == []
    ensures r.Some? ==> v.InRange(r.value) && Fat(v, old(disk.sectors), r.value) == 0
                        && GrowCache(v, old(disk.sectors), cache, chain[|chain| - 1], r.value)
                        && w == GrowLog(v, old(disk.sectors), r.value, cache)
  {
    hide Replay, ChainLbas, FlushLog, AdjustLog, Padded, Fat, CachedOk, DirtyIn, SameHead, Links, AgreeAll, FreeFrom;
    ghost var d, log := disk.sectors, disk.log;
    var last := chain[|chain| - 1];
    WentNone(d, log);
    TableNone(v, d);
    FreeFromIs(v, d, 2);
    var table := new FatTable();
    var found := Allocate(v, disk, table, 1);
    r, w, cache := None, [], [];
    if found.None? {
      return;
    }
    var a := found.value[0];
    assert found.value == [a];
    LinksAt([a]);
    assert NextIn([a], 0) == END_MARK;
    assert Links([a]) == map[a := END_MARK];
    ZeroPutsIs(v, d, a);
    WriteClusters(v, disk, [a], []);
    ghost var mid, log1 := disk.sectors, disk.log;
    CacheFrame(v, d, mid, table.sectors, table.changes);
    assert v.InRange(last);
    ghost var before := table.sectors;
    table.Set(v, disk, last, a);
    assert table.changes == GrowChanges(last, a);
    cache := table.sectors;
    assert Fat(v, d, a) == 0;
    GrowCacheIs(v, mid, before, cache, last, a);
    CacheFrame(v, mid, d, cache, table.changes) by {
      HeadBack(v, d, mid);
    }
    table.Flush(v, disk);
    ghost var end, log2 := disk.sectors, disk.log;
    WentOn(d, log, mid, log1, ZeroPuts(v, a), end, log2, FlushLog(v, cache));
    AdjustFree(v, disk, -1);
    WentOn(d, log, end, log2, ZeroPuts(v, a) + FlushLog(v, cache), disk.sectors, disk.log, AdjustLog(v, end, -1));
    r, w := Some(a), GrowLog(v, d, a, cache);
  }

  lemma HeadBack(v: Volume, d: Image, e: Image)
    requires SameHead(v, d, e)
    ensures SameHead(v, e, d)
  {
  }
}
