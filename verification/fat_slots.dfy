/** Directory slots on the disk: a directory read whole, one slot rewritten. */
module FatSlots {
  import opened Base
  import Numbers
  import opened Blocks
  import opened FatLayout
  import opened FatChain
  import opened FatData
  import opened FatNames
  import opened FatDirectory
  import opened FatTree
  import opened FatTables
  import opened FatFree

  /** What `IsDirectory` ties to the disk: where the slots are, the slots, and the
      items they make. */
  datatype Directory = Directory(chain: seq<nat>, slots: seq<Slot>, items: seq<Item>)

  /** `dir` is what the disk holds of the directory that starts at `cluster`. */
  ghost predicate IsDirectory(v: Volume, d: Image, cluster: nat, dir: Directory)
    requires v.Holds(d)
  {
    && ChainOf(v, d, cluster) == Some(dir.chain) && v.AllIn(dir.chain)
    && dir.slots == DirSlots(v, d, dir.chain)
    && dir.items == Items(dir.slots)
  }

  /** The sectors of a chain, read run by run. */
  method ReadSectors(v: Volume, disk: Disk, chain: seq<nat>) returns (sectors: seq<Sector>)
    requires v.Holds(disk.sectors) && v.AllIn(chain)
    ensures sectors == GatherChain(v, disk.sectors, chain)
  {
    hide Spans, ChainLbas;
    ghost var all := GatherChain(v, disk.sectors, chain);
    var runs := Runs(v, chain);
    sectors := [];
    SpansNone();
    for i := 0 to |runs|
      invariant |Spans(runs[..i])| <= |all| && sectors == all[..|Spans(runs[..i])|]
    {
      ghost var done := |Spans(runs[..i])|;
      RunAt(v, disk.sectors, chain, runs, i);
      for k := 0 to runs[i].sectors
        invariant sectors == all[..done + k]
      {
        assert ChainLbas(v, chain)[done..done + runs[i].sectors][k] == ChainLbas(v, chain)[done + k];
        assert all[done + k] == disk.sectors[runs[i].lba + k];
        sectors := sectors + [disk.sectors[runs[i].lba + k]];
      }
    }
    assert runs[..|runs|] == runs && all[..|all|] == all;
  }

  /** The slots of some sectors, cut 32 bytes at a time. */
  method CutSlots(sectors: seq<Sector>) returns (slots: seq<Slot>)
    ensures slots == SlotsOf(sectors)
  {
    slots := [];
    for i := 0 to |sectors|
      invariant slots == SlotsOf(sectors)[..16 * i]
    {
      for k := 0 to 16
        invariant slots == SlotsOf(sectors)[..16 * i + k]
      {
        assert SlotsOf(sectors)[16 * i + k] == SlotAt(sectors[i], k);
        slots := slots + [sectors[i][32 * k..32 * k + 32]];
      }
    }
  }

  /** The entries of a directory, slot by slot. */
  method ReadItems(slots: seq<Slot>) returns (items: seq<Item>)
    ensures items == Items(slots)
  {
    hide ShortName, LongName, SlotUnits, SlotEntry, IsDotName;
    items := [];
    var long: seq<Part> := [];
    var longStart: nat := 0;
    for k := 0 to |slots|
      invariant ScanTo(slots, k) == Scan(items, long, longStart, false)
    {
      var raw := slots[k];
      if raw[0] == 0x00 {
        DoneStays(slots, k + 1, |slots|);
        return;
      }
      if raw[0] == 0xE5 {
        long := [];
        continue;
      }
      if raw[11] == ATTR_LONG {
        if long == [] {
          longStart := k;
        }
        long := long + [Part(raw[0] % 32, SlotUnits(raw))];
        continue;
      }
      if raw[11] / 8 % 2 == 1 {
        long := [];
        continue;
      }
      var (name, first) := if long == [] then (ShortName(raw), k) else (LongName(long), longStart);
      long := [];
      if IsDotName(name) {
        continue;
      }
      items := items + [Item(name, raw[..11], SlotEntry(raw), first, k)];
    }
  }

  method ReadDirectory(v: Volume, disk: Disk, cluster: nat) returns (r: Option<Directory>)
    requires v.Holds(disk.sectors)
    ensures r.None? <==> ChainOf(v, disk.sectors, cluster).None?
    ensures r.Some? ==> IsDirectory(v, disk.sectors, cluster, r.value)
  {
    var chain := Chain(v, disk, cluster);
    if chain.None? {
      return None;
    }
    ChainOfExact(v, disk.sectors, cluster, chain.value);
    var sectors := ReadSectors(v, disk, chain.value);
    var slots := CutSlots(sectors);
    var items := ReadItems(slots);
    r := Some(Directory(chain.value, slots, items));
  }

  // ---- One slot rewritten -----------------------------------------------------------------------

  /** A sector with the 32 bytes at `at` replaced. */
  function PutBytes(s: Sector, at: nat, raw: Slot): Sector
    requires at + 32 <= 512
  {
    s[..at] + raw + s[at + 32..]
  }

  function PutSlot(s: Sector, i: nat, raw: Slot): Sector
    requires i < 16
  {
    PutBytes(s, 32 * i, raw)
  }

  lemma PutSlotAt(s: Sector, i: nat, raw: Slot, k: nat)
    requires i < 16 && k < 16
    ensures SlotAt(PutSlot(s, i, raw), k) == if k == i then raw else SlotAt(s, k)
  {
    var t := PutSlot(s, i, raw);
    assert k < i ==> SlotAt(t, k) == SlotAt(s, k);
    assert k > i ==> SlotAt(t, k) == SlotAt(s, k);
  }

  /** The cluster of slot `k` in its directory's chain, and where it is in it. */
  function SlotCluster(v: Volume, k: nat): int
    requires v.spc > 0
  {
    k * 32 / (v.spc * 512)
  }

  function SlotWithin(v: Volume, k: nat): nat
    requires v.spc > 0
  {
    k * 32 % (v.spc * 512)
  }

  /** The same numbers, counted in sectors. */
  lemma SlotArith(v: Volume, n: nat, k: nat) returns (j: nat, r: nat)
    requires 0 < v.spc
    ensures j == SlotCluster(v, k) && r < v.spc && SlotWithin(v, k) == 512 * r + 32 * (k % 16)
    ensures k / 16 == Times(j, v.spc) + r && (j < n <==> k / 16 < Times(n, v.spc))
  {
    var q := k / 16;
    j, r := q / v.spc, q % v.spc;
    assert q == v.spc * j + r;
    assert v.spc * 512 * j == 512 * (v.spc * j);
    Numbers.DivIs(k * 32, v.spc * 512, j, 512 * r + 32 * (k % 16));
    TimesFormula(j, v.spc);
    TimesBounds(v.spc, n, j, r);
  }

  lemma TimesBounds(spc: nat, n: nat, j: nat, r: nat)
    requires r < spc
    ensures j < n <==> Times(j, spc) + r < Times(n, spc)
  {
    if j < n {
      TimesMono(j, n, spc);
    } else {
      TimesMono(n, j, spc);
    }
  }

  /** Slot `k` of a directory: its sector, and its place in the sector. */
  lemma SlotPlace(v: Volume, chain: seq<nat>, k: nat)
    requires v.Ok()
    ensures var cluster, within := SlotCluster(v, k), SlotWithin(v, k);
            && 0 <= cluster && within % 512 == 32 * (k % 16)
            && (cluster < |chain| <==> k < 16 * |ChainLbas(v, chain)|)
            && (cluster < |chain| ==> ChainLbas(v, chain)[k / 16] == v.Lba(chain[cluster]) + within / 512)
  {
    hide ChainLbas, Times, SlotCluster, SlotWithin, Volume.Lba;
    var j, r := SlotArith(v, |chain|, k);
    ChainLbasLength(v, chain);
    if j < |chain| {
      ChainLbasAt(v, chain, j, r);
    }
  }

  /** All sectors before the data are the same: the FATs and FSInfo. */
  ghost predicate SameHead(v: Volume, d: Image, e: Image) {
    |d| == |e| && forall s | 0 <= s < |d| && s < v.dataStart :: e[s] == d[s]
  }

  lemma SameHeadFat(v: Volume, d: Image, e: Image)
    requires v.Holds(d) && SameHead(v, d, e)
    ensures forall c: nat | v.InRange(c) :: Fat(v, e, c) == Fat(v, d, c)
    ensures CopiesEqual(v, d) ==> CopiesEqual(v, e)
    ensures FsCount(v, e) == FsCount(v, d)
    ensures FreeSet(v, e) == FreeSet(v, d)
  {
    hide Raw, SectorCount;
    if CopiesEqual(v, d) {
      forall copy: nat, index: nat | copy < v.fats && index < v.fatSize
        ensures FatLba(v, copy, index) < |e| && e[FatLba(v, copy, index)] == e[v.fatStart + index]
      {
        FatLbaInside(v, d, copy, index);
        assert d[FatLba(v, copy, index)] == d[v.fatStart + index];
      }
    }
  }

  /** `e` is `d` with the directory on `chain` rewritten to `slots`. */
  ghost predicate DirBecame(v: Volume, d: Image, e: Image, chain: seq<nat>, slots: seq<Slot>)
    requires v.Holds(d)
  {
    && SameHead(v, d, e)
    && Agree(v, d, e, Elements(chain))
    && DirSlots(v, e, chain) == slots
  }

  ghost function SlotPut(v: Volume, d: Image, chain: seq<nat>, k: nat, raw: Slot): Event
    requires v.Holds(d) && v.AllIn(chain) && k < 16 * |ChainLbas(v, chain)|
  {
    LbasInside(v, d, chain);
    var lba := ChainLbas(v, chain)[k / 16];
    Put(lba, PutSlot(d[lba], k % 16, raw))
  }

  /** Writing one slot changes that slot of that directory and nothing else. */
  lemma SlotWritten(v: Volume, d: Image, chain: seq<nat>, k: nat, raw: Slot)
    requires v.Holds(d) && v.AllIn(chain) && Distinct(chain) && k < 16 * |ChainLbas(v, chain)|
    ensures k < |DirSlots(v, d, chain)|
    ensures DirBecame(v, d, Apply(d, SlotPut(v, d, chain, k, raw)), chain, DirSlots(v, d, chain)[k := raw])
  {
    hide ChainLbas, Owns, SlotAt, Fat, PutSlot;
    var put := SlotPut(v, d, chain, k, raw);
    var e := Apply(d, put);
    LbasInside(v, d, chain);
    ChainLbasDistinct(v, chain);
    var j := ChainOwner(v, chain, k / 16);
    SameHeadFat(v, d, e);
    assert v.Holds(e);
    assert Agree(v, d, e, Elements(chain)) by {
      forall c: nat, s: nat | Owns(v, c, s) && c !in Elements(chain) && s < |d|
        ensures e[s] == d[s]
      {
        if s == put.lba {
          OwnerUnique(v, c, chain[j], s);
        }
      }
    }
    forall i | 0 <= i < |DirSlots(v, d, chain)|
      ensures DirSlots(v, e, chain)[i] == DirSlots(v, d, chain)[k := raw][i]
    {
      var before, after := GatherChain(v, d, chain), GatherChain(v, e, chain);
      if i / 16 == k / 16 {
        PutSlotAt(before[i / 16], k % 16, raw, i % 16);
      } else {
        assert ChainLbas(v, chain)[i / 16] != put.lba;
      }
    }
    assert DirSlots(v, e, chain) == DirSlots(v, d, chain)[k := raw];
  }

  lemma BecameThen(v: Volume, d: Image, mid: Image, e: Image, chain: seq<nat>, a: seq<Slot>, b: seq<Slot>)
    requires v.Holds(d) && DirBecame(v, d, mid, chain, a) && v.Holds(mid) && DirBecame(v, mid, e, chain, b)
    ensures DirBecame(v, d, e, chain, b)
  {
    hide DirSlots;
    AgreeTrans(v, d, mid, e, Elements(chain), Elements(chain));
    assert Elements(chain) + Elements(chain) == Elements(chain);
  }

  /** One sector is written: the one with slot `k`, that slot alone changed. It
      fails, writing nothing, past the end of the directory. */
  method PatchSlot(v: Volume, disk: Disk, chain: seq<nat>, k: nat, change: Slot -> Slot) returns (ok: bool)
    requires v.Holds(disk.sectors) && v.AllIn(chain) && Distinct(chain)
    modifies disk
    ensures ok <==> k < |DirSlots(v, old(disk.sectors), chain)|
    ensures !ok ==> disk.sectors == old(disk.sectors) && disk.log == old(disk.log)
    ensures ok ==> k < 16 * |ChainLbas(v, chain)| &&
                   Went(old(disk.sectors), old(disk.log), disk.sectors, disk.log,
                        [SlotPut(v, old(disk.sectors), chain, k, change(DirSlots(v, old(disk.sectors), chain)[k]))])
  {
    hide ChainLbas, Replay, PutBytes, Volume.Lba, Owns, SlotCluster, SlotWithin;
    ghost var d := disk.sectors;
    SlotPlace(v, chain, k);
    var cluster := SlotCluster(v, k);
    if cluster >= |chain| {
      return false;
    }
    var within := SlotWithin(v, k);
    var lba := v.Lba(chain[cluster]) + within / 512;
    var at := within % 512;
    LbasInside(v, d, chain);
    assert lba == ChainLbas(v, chain)[k / 16] && at == 32 * (k % 16);
    var sector := disk.sectors[lba];
    var raw := sector[at..at + 32];
    assert raw == DirSlots(v, d, chain)[k];
    ghost var put := SlotPut(v, d, chain, k, change(raw));
    ReplayOne(d, put);
    disk.Write(lba, PutBytes(sector, at, change(raw)));
    ok := true;
  }
}
