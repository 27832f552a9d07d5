/** `make_dir`: a cluster with "." and "..", then its entry. */
module FatFolders {
  import opened Base
  import opened Blocks
  import opened FatLayout
  import opened FatChain
  import opened FatData
  import opened FatNames
  import opened FatDirectory
  import opened FatRoundTrip
  import opened FatTree
  import opened FatPaths
  import opened FatTables
  import opened FatFree
  import opened FatSlots
  import opened FatSwitch
  import opened FatAtomic
  import opened FatPrepare
  import opened FatEnter
  import opened FatFind
  import opened FatWrite
  import opened FatFiles

  /** "." or "..", padded. */
  function Dots11(n: nat): (r: seq<byte>)
    requires 1 <= n <= 2
    ensures |r| == 11
  {
    seq(11, i requires 0 <= i < 11 => if i < n then DOT else SPACE)
  }

  function DotSlot(n: nat, cluster: nat, stamp: Stamp): Slot
    requires 1 <= n <= 2 && cluster < 0x1_0000_0000
  {
    ShortSlot(Short(Dots11(n), 0, false), ATTR_DIRECTORY, cluster, 0, stamp)
  }

  /** The first cluster of a new directory; `above` is 0 for the root. */
  function Block(v: Volume, cluster: nat, above: nat, stamp: Stamp): (r: seq<byte>)
    requires v.spc > 0 && cluster < 0x1_0000_0000 && above < 0x1_0000_0000
    ensures |r| == 512 * v.spc
  {
    DotSlot(1, cluster, stamp) + DotSlot(2, above, stamp) + seq(512 * v.spc - 64, _ => 0)
  }

  lemma DotName(n: nat, raw: Slot)
    requires 1 <= n <= 2 && raw[..11] == Dots11(n) && raw[12] == 0
    ensures IsDotName(ShortName(raw))
  {
    hide TrimEnd;
    assert raw[..8] == raw[..11][..8] && raw[8..11] == raw[..11][8..];
    TrimSpaces(raw[..8], n);
    TrimSpaces(raw[8..11], 0);
    assert raw[0] == raw[..11][0] == DOT;
    assert raw[..8][..n] == if n == 1 then [DOT] else [DOT, DOT];
  }

  /** A reader steps over "." and "..". */
  lemma DotRead(st: Scan, n: nat, cluster: nat, stamp: Stamp, k: nat)
    requires 1 <= n <= 2 && cluster < 0x1_0000_0000 && !st.done && st.long == []
    ensures ReadSlot(st, DotSlot(n, cluster, stamp), k) == st
    ensures DotSlot(n, cluster, stamp)[0] == DOT && DotSlot(n, cluster, stamp)[11] == ATTR_DIRECTORY
  {
    hide ShortSlot, ShortName, LongName, SlotUnits, SlotEntry, IsDotName;
    var raw := DotSlot(n, cluster, stamp);
    ShortSlotRead(Short(Dots11(n), 0, false), ATTR_DIRECTORY, cluster, 0, stamp);
    assert raw[0] == raw[..11][0];
    DotName(n, raw);
  }

  /** A new directory lists nothing, and its slots are in order. */
  lemma BlockEmpty(slots: seq<Slot>, cluster: nat, above: nat, stamp: Stamp)
    requires |slots| >= 2 && cluster < 0x1_0000_0000 && above < 0x1_0000_0000
    requires slots[0] == DotSlot(1, cluster, stamp) && slots[1] == DotSlot(2, above, stamp)
    requires forall k | 2 <= k < |slots| :: slots[k][0] == 0
    ensures Items(slots) == [] && Tidy(slots)
  {
    hide ReadSlot, DotSlot;
    DotRead(ScanTo(slots, 0), 1, cluster, stamp, 0);
    ScanStep(slots, 0);
    DotRead(ScanTo(slots, 1), 2, above, stamp, 1);
    ScanStep(slots, 1);
    if |slots| > 2 {
      ReadFree(ScanTo(slots, 2), slots[2], 2);
      ScanStep(slots, 2);
      DoneStays(slots, 3, |slots|);
    }
  }

  /** The slots of the block, once it is on the disk. */
  lemma BlockSlots(v: Volume, e: Image, c: nat, above: nat, stamp: Stamp)
    requires v.Holds(e) && v.InRange(c) && above < 0x1_0000_0000 && c < 0x1_0000_0000
    requires GatherChain(v, e, [c]) == Padded(Block(v, c, above, stamp), |ChainLbas(v, [c])|)
    ensures DirItems(v, e, [c]) == [] && Tidy(DirSlots(v, e, [c]))
  {
    hide ChainLbas, DotSlot, Items, Tidy;
    var slots, block := DirSlots(v, e, [c]), Block(v, c, above, stamp);
    ClusterSpan(v, [], c);
    ChainLbasLength(v, []);
    assert Times(0, v.spc) == 0 && [] + [c] == [c];
    forall k, i | 0 <= k < |slots| && 0 <= i < 32
      ensures slots[k][i] == block[32 * k + i]
    {
      assert 512 * (k / 16) + (32 * (k % 16) + i) == 32 * k + i;
    }
    assert slots[0] == DotSlot(1, c, stamp) && slots[1] == DotSlot(2, above, stamp);
    BlockEmpty(slots, c, above, stamp);
  }

  // ---- make_dir ---------------------------------------------------------------------------------

  /** When `make_dir` succeeds. */
  ghost predicate Makeable(v: Volume, d: Image, text: seq<nat>)
    requires v.Holds(d)
  {
    var place := Place(v, d, text);
    && place.Some?
    && var home := HomeChain(v, d, Parts(text));
       var at := LookupEntry(v, DirItems(v, d, home), place.value.1);
       if at.Some? then at.value.directory else FreeSet(v, d) != {} && Enters(v, d, home, place.value.1, 1)
  }

  lemma MakeableIs(v: Volume, d: Image, text: seq<nat>)
    requires v.Holds(d)
    ensures Makeable(v, d, text) ==> Place(v, d, text).Some?
    ensures Place(v, d, text).Some? ==>
              var home := HomeChain(v, d, Parts(text));
              var at := LookupEntry(v, DirItems(v, d, home), Place(v, d, text).value.1);
              Makeable(v, d, text) <==>
              (if at.Some? then at.value.directory
               else FreeSet(v, d) != {} && Enters(v, d, home, Place(v, d, text).value.1, 1))
  {
    hide Place, HomeChain, DirItems, LookupEntry, Enters, FreeSet;
  }

  /** A directory that is there already reads as one. */
  lemma AlreadyThere(v: Volume, d: Image, t: Tree, text: seq<nat>, directory: Directory)
    requires Sound(v, d, t) && Place(v, d, text).Some?
    requires IsDirectory(v, d, Place(v, d, text).value.0.cluster, directory)
    requires var at := LookupEntry(v, directory.items, Place(v, d, text).value.1); at.Some? && at.value.directory
    ensures Completed(v, d, d, Parts(text), Folder, t)
  {
    hide WellFormed, TidyAll, CopiesEqual, CountTrue, Find, Parts, Halves, ValidName, Lookup, ListDir, HomeChain,
      DirItems, DirSlots, Place, SamePath;
    PlaceIs(v, d, t, text, directory);
    var (parent, name) := Place(v, d, text).value;
    WholeBy(v, d, t);
    FindNext(v, d, Parts(Halves(text).0), name);
    ListDirIs(v, d, t, parent.cluster);
    forall path | SamePath(v, path, Parts(text))
      ensures Contents(v, d, path) == Some(Folder)
    {
      FindSame(v, d, path, Parts(text));
    }
  }

  /** A prepared block is an empty directory ready for its entry. */
  lemma PreparedFolder(v: Volume, d: Image, c: nat, above: nat, stamp: Stamp, w: seq<Event>)
    requires v.Holds(d) && v.InRange(c) && c < 0x1_0000_0000 && above < 0x1_0000_0000 && v.spc > 0
    requires Prepared(v, d, [c], Block(v, c, above, stamp), w) && v.Holds(Replay(d, w))
    ensures var e, entry := Replay(d, w), Entry(c, 0, true);
            NewEntry(v, e, entry, [c]) && NodeAt(v, e, Some(entry)) == Some(Folder) && Tidy(DirSlots(v, e, [c]))
  {
    hide Replay, Fat, Links, AgreeAll, CopiesEqual, FreeSet, FsCount, GatherChain, Padded, DirItems, Tidy, DirSlots,
      Bytes, Block;
    assert c != 0;
    BlockSlots(v, Replay(d, w), c, above, stamp);
  }

  lemma OneCluster(v: Volume, c: nat)
    ensures Times(1, v.spc) == v.spc
  {
  }

  /** The cluster `Prepare` takes first: the first free one. */
  lemma FirstIs(v: Volume, d: Image)
    requires v.Holds(d) && FreeFrom(v, d, 2) != []
    ensures FreeFrom(v, d, 2)[..1] == [FreeFrom(v, d, 2)[0]] && v.InRange(FreeFrom(v, d, 2)[0])
    ensures FreeFrom(v, d, 2)[0] < 0x1_0000_0000
  {
    hide FreeFrom, Fat;
    FreeFromIs(v, d, 2);
  }

  /** Creates the directory at a path; one that is there is left as it is. What
      holds of `WriteFile` holds here, with an empty directory in place of the
      file. */
  method MakeDir(v: Volume, disk: Disk, text: seq<nat>, stamp: Stamp, ghost t: Tree)
    returns (ok: bool, ghost w: seq<Event>, ghost u: Tree)
    requires Sound(v, disk.sectors, t) && IsText(text) && NameKept(v, disk.sectors, text)
    modifies disk
    ensures Went(old(disk.sectors), old(disk.log), disk.sectors, disk.log, w)
    ensures ok <==> Makeable(v, old(disk.sectors), text)
    ensures w != [] ==> Place(v, old(disk.sectors), text).Some? && FreeSet(v, old(disk.sectors)) != {}
    ensures Atomic(v, old(disk.sectors), old(disk.sectors), w, Parts(text), Folder) <==>
              InOrder(v, old(disk.sectors), text, 1)
    ensures ok ==> Completed(v, old(disk.sectors), disk.sectors, Parts(text), Folder, u)
    ensures !ok ==> Reads(v, old(disk.sectors), disk.sectors)
  {
    hide *;
    ghost var d, log, target := disk.sectors, disk.log, Parts(text);
    Constants();
    SoundHolds(v, d, t);
    ReadsSame(v, d, t, target, Folder);
    WentNone(d, log);
    ok, w, u := false, [], t;
    MakeableIs(v, d, text);
    var place := ParentAndName(v, disk, text);
    if place.None? {
      InOrderReplaced(v, d, text, 1);
      return;
    }
    var (parent, name) := place.value;
    var directory := ReadDirectory(v, disk, parent.cluster);
    PlaceListed(v, d, t, text);
    assert directory.Some?;
    PlaceIs(v, d, t, text, directory.value);
    var at := FirstNamed(v, directory.value.items, name);
    if at.Some? {
      InOrderReplaced(v, d, text, 1);
      ok := directory.value.items[at.value].entry.directory;
      if ok {
        AlreadyThere(v, d, t, text, directory.value);
      }
      return;
    }
    InOrderNew(v, d, text, 1);
    FreeEmpty(v, d);
    TableNone(v, d);
    var table := NewTable(v, d);
    var chain := Allocate(v, disk, table, 1);
    if chain.None? {
      InOrderFull(v, d, text, 1);
      return;
    }
    FirstIsFree(v, d, chain.value);
    FirstIs(v, d);
    var cluster := chain.value[0];
    var above := if parent.cluster == v.root then 0 else parent.cluster;
    ClusterSmall(v, d, t, parent.cluster);
    OneCluster(v, cluster);
    ghost var w1 := Store(v, disk, table, chain.value, Block(v, cluster, above, stamp));
    WentTo(d, log, disk.sectors, disk.log, w1);
    ghost var d1, log1, before := disk.sectors, disk.log, Parts(Halves(text).0);
    StagedBy(v, d, t, text, directory.value, chain.value, Block(v, cluster, above, stamp), w1, Folder);
    PreparedFolder(v, d, cluster, above, stamp, w1);
    StorableIs(text);
    NameKeptIs(v, d, text, directory.value);
    FirstOf(chain.value);
    ghost var rest;
    ok, rest, u := AddAndCount(v, disk, directory.value, name, ATTR_DIRECTORY, cluster, 1, 0, stamp,
                                d, t, parent.cluster, before, chain.value, w1, Folder);
    WentOn(d, log, d1, log1, w1, disk.sectors, disk.log, rest);
    w := w1 + rest;
  }

  lemma FirstOf(chain: seq<nat>)
    requires chain != []
    ensures First(chain) == chain[0]
  {
  }

  lemma ClusterSmall(v: Volume, d: Image, t: Tree, dir: nat)
    requires Sound(v, d, t) && dir in t.chains
    ensures dir < 0x1_0000_0000
  {
    hide EntriesOk, RefsUnique, TidyAll, CopiesEqual, CountTrue;
    assert IsChain(v, d, dir, t.chains[dir]);
    assert v.InRange(t.chains[dir][0]);
  }

  method NewTable(v: Volume, ghost d: Image) returns (table: FatTable)
    requires v.Holds(d)
    ensures fresh(table) && table.Valid(v, d) && table.sectors == [] && table.changes == map[]
  {
    table := new FatTable();
    TableNone(v, d);
  }
}
