/** Freeing a chain, and FSInfo's count of free clusters. */
module FatFree {
  import opened Base
  import opened Blocks
  import opened FatLayout
  import opened FatChain
  import opened FatTables

  const LEAD: nat := 0x4161_5252
  const STRUCTURE: nat := 0x6141_7272
  const UNKNOWN: nat := 0xFFFF_FFFF

  /** `e` is `d` with the FAT changed by `changes`, in every copy, and no other
      sector touched. */
  ghost predicate Rewired(v: Volume, d: Image, e: Image, changes: map<nat, nat>)
    requires v.Holds(d)
  {
    && |e| == |d|
    && (forall c: nat | v.InRange(c) :: Fat(v, e, c) == View(v, d, changes, c))
    && (forall s: nat | s < |d| && (s < v.fatStart || v.dataStart <= s) :: e[s] == d[s])
    && (CopiesEqual(v, d) ==> CopiesEqual(v, e))
  }

  lemma FlushRewired(v: Volume, d: Image, cache: seq<Cached>, changes: map<nat, nat>)
    requires v.Holds(d) && CacheOk(v, d, cache, changes) && v.fats > 0
    ensures Rewired(v, d, Replay(d, FlushLog(v, cache)), changes)
    ensures AgreeAll(v, d, FlushLog(v, cache), changes.Keys)
  {
    var w := FlushLog(v, cache);
    var e := Replay(d, w);
    FlushAgree(v, d, cache, changes);
    forall c: nat | v.InRange(c)
      ensures Fat(v, e, c) == View(v, d, changes, c)
    {
      FlushView(v, d, cache, changes, c);
    }
    forall s: nat | s < |d| && (s < v.fatStart || v.dataStart <= s)
      ensures e[s] == d[s]
    {
      FlushBelow(v, d, cache, s);
      ReplayUntouched(d, w, s);
    }
    if CopiesEqual(v, d) {
      FlushCopies(v, d, cache, changes);
    }
  }

  // ---- FSInfo -----------------------------------------------------------------------------------

  /** The free count FSInfo keeps, when it keeps one. */
  ghost function FsCount(v: Volume, d: Image): Option<nat>
    requires v.Holds(d)
  {
    if v.fsinfo.None? then None
    else SectorCount(d[v.fsinfo.value])
  }

  function SectorCount(s: Sector): Option<nat> {
    if Raw(s, 0) != LEAD || Raw(s, 121) != STRUCTURE || Raw(s, 122) == UNKNOWN then None else Some(Raw(s, 122))
  }

  function Clamp(x: int, high: nat): nat {
    if x < 0 then 0 else if x > high then high else x
  }

  function SetCount(s: Sector, n: nat): (r: Sector)
    requires n < UNKNOWN
    ensures SectorCount(s).Some? ==> SectorCount(r) == Some(n)
  {
    RawAfter(s, 122, n, 0);
    RawAfter(s, 122, n, 121);
    RawAfter(s, 122, n, 122);
    PutWord(s, 122, Le4(n))
  }

  /** What `AdjustFree` writes: the new count, or nothing. */
  ghost function AdjustLog(v: Volume, d: Image, delta: int): seq<Event>
    requires v.Holds(d)
  {
    var count := FsCount(v, d);
    if count.None? || delta == 0 then []
    else [Put(v.fsinfo.value, SetCount(d[v.fsinfo.value], Clamp(count.value + delta, v.clusters)))]
  }

  /** The one write of FSInfo, if any: its count moved by `delta` and kept between 0
      and the number of clusters. */
  method AdjustFree(v: Volume, disk: Disk, delta: int)
    requires v.Holds(disk.sectors)
    modifies disk
    ensures Went(old(disk.sectors), old(disk.log), disk.sectors, disk.log, AdjustLog(v, old(disk.sectors), delta))
  {
    assert disk.log + [] == disk.log;
    if v.fsinfo.None? {
      return;
    }
    var lba := v.fsinfo.value;
    var sector := disk.sectors[lba];
    var free := SectorCount(sector);
    if free.None? || delta == 0 {
      return;
    }
    ghost var d := disk.sectors;
    disk.Write(lba, SetCount(sector, Clamp(free.value + delta, v.clusters)));
    assert AdjustLog(v, d, delta)[..0] == [];
  }

  lemma ReplayOne(d: Image, e: Event)
    ensures Replay(d, [e]) == Apply(d, e)
  {
    assert [e][..0] == [];
  }

  /** A write before the FATs moves no entry, no copy and no data. */
  lemma PutBelow(v: Volume, d: Image, s: nat, data: Sector)
    requires v.Holds(d) && s < v.fatStart
    ensures Agree(v, d, d[s := data], {}) && (CopiesEqual(v, d) ==> CopiesEqual(v, d[s := data]))
  {
    var e := d[s := data];
    if CopiesEqual(v, d) {
      forall copy: nat, index: nat | copy < v.fats && index < v.fatSize
        ensures FatLba(v, copy, index) < |e| && e[FatLba(v, copy, index)] == e[v.fatStart + index]
      {
        FatLbaInside(v, d, copy, index);
        assert d[FatLba(v, copy, index)] == d[v.fatStart + index];
      }
    }
  }

  function Moved(count: Option<nat>, delta: int, high: nat): Option<nat> {
    if count.None? || delta == 0 then count else Some(Clamp(count.value + delta, high))
  }

  /** An adjustment touches no FAT entry, no FAT copy and no data; the count
      moves by `delta`, held between 0 and the number of clusters. */
  lemma AdjustEffect(v: Volume, d: Image, delta: int)
    requires v.Holds(d)
    ensures var w := AdjustLog(v, d, delta);
            && AgreeAll(v, d, w, {})
            && (CopiesEqual(v, d) ==> CopiesEqual(v, Replay(d, w)))
            && FsCount(v, Replay(d, w)) == Moved(FsCount(v, d), delta, v.clusters)
  {
    var w := AdjustLog(v, d, delta);
    assert w[..0] == [];
    if w != [] {
      ReplayOne(d, w[0]);
      PutBelow(v, d, w[0].lba, w[0].data);
      assert w[..1] == w;
    }
  }

  // ---- Freeing ----------------------------------------------------------------------------------

  ghost function Zeros(chain: seq<nat>): map<nat, nat> {
    map c | c in chain :: 0
  }

  /** The events of a freed chain: its entries zeroed in every FAT, then the
      count. From `d`, they go through images that differ from it in nothing
      but those entries, and end with exactly those entries free. */
  ghost predicate FreedBy(v: Volume, d: Image, chain: seq<nat>, w: seq<Event>)
    requires v.Holds(d)
  {
    var e := Replay(d, w);
    && AgreeAll(v, d, w, Elements(chain))
    && (forall c: nat | v.InRange(c) :: Fat(v, e, c) == if c in chain then 0 else Fat(v, d, c))
    && (CopiesEqual(v, d) ==> CopiesEqual(v, e))
    && FsCount(v, e) == Moved(FsCount(v, d), |chain|, v.clusters)
  }

  lemma FreedAll(v: Volume, d: Image, chain: seq<nat>, cache: seq<Cached>)
    requires v.Holds(d) && v.fats > 0 && CacheOk(v, d, cache, Zeros(chain))
    ensures FreedBy(v, d, chain, FlushLog(v, cache) + AdjustLog(v, Replay(d, FlushLog(v, cache)), |chain|))
  {
    hide AdjustLog, FlushLog, Replay, Raw, CacheOk, AgreeAll;
    var w1 := FlushLog(v, cache);
    var mid := Replay(d, w1);
    var w2 := AdjustLog(v, mid, |chain|);
    FlushRewired(v, d, cache, Zeros(chain));
    assert Zeros(chain).Keys == Elements(chain);
    AdjustEffect(v, mid, |chain|);
    ReplayConcat(d, w1, w2);
    AgreeThen(v, d, w1, w2, Elements(chain), {});
    assert Elements(chain) + {} == Elements(chain);
    AgreeEnd(v, mid, w2, {});
    forall c: nat | v.InRange(c)
      ensures Fat(v, Replay(mid, w2), c) == if c in chain then 0 else Fat(v, d, c)
    {
      assert Fat(v, mid, c) == View(v, d, Zeros(chain), c);
    }
  }

  /** Sets every entry of a chain to free, in the table. */
  method ZeroAll(v: Volume, disk: Disk, table: FatTable, chain: seq<nat>)
    requires table.Valid(v, disk.sectors) && table.changes == map[] && v.AllIn(chain)
    modifies table
    ensures table.Valid(v, disk.sectors) && table.changes == Zeros(chain)
  {
    for i := 0 to |chain|
      invariant table.Valid(v, disk.sectors) && table.changes == Zeros(chain[..i])
    {
      assert Zeros(chain[..i])[chain[i] := 0] == Zeros(chain[..i + 1]);
      table.Set(v, disk, chain[i], 0);
    }
    assert chain[..|chain|] == chain;
  }

  /** Afterwards the entries of the chain's clusters read 0, all other entries and
      all data as before; a broken chain is refused with nothing written. */
  method FreeChain(v: Volume, disk: Disk, first: nat) returns (ok: bool, ghost w: seq<Event>)
    requires v.Holds(disk.sectors) && v.fats > 0
    modifies disk
    ensures Went(old(disk.sectors), old(disk.log), disk.sectors, disk.log, w)
    ensures ok <==> ChainOf(v, old(disk.sectors), first).Some?
    ensures ok ==> FreedBy(v, old(disk.sectors), ChainOf(v, old(disk.sectors), first).value, w)
    ensures !ok ==> w == []
  {
    ghost var d, log := disk.sectors, disk.log;
    assert log + [] == log;
    var found := Chain(v, disk, first);
    if found.None? {
      return false, [];
    }
    ChainOfExact(v, d, first, found.value);
    var chain := found.value;
    if chain == [] {
      FreedNone(v, d);
      return true, [];
    }
    var table := new FatTable();
    ZeroAll(v, disk, table, chain);
    FreedAll(v, d, chain, table.sectors);
    ghost var cache := table.sectors;
    table.Flush(v, disk);
    ghost var mid, log1 := disk.sectors, disk.log;
    AdjustFree(v, disk, |chain|);
    WentOn(d, log, mid, log1, FlushLog(v, cache), disk.sectors, disk.log, AdjustLog(v, mid, |chain|));
    ok, w := true, FlushLog(v, cache) + AdjustLog(v, mid, |chain|);
  }

  lemma FreedNone(v: Volume, d: Image)
    requires v.Holds(d)
    ensures FreedBy(v, d, [], [])
  {
    var w: seq<Event> := [];
    assert w[..0] == [];
  }
}
