/** Small volumes: one on which a new entry cannot be entered safely, one that
    has two entries of one name. */
module FatWitness {
  import opened Base
  import opened Blocks
  import opened FatLayout
  import opened FatChain
  import opened FatData
  import opened FatNames
  import opened FatRoundTrip
  import opened FatDirectory
  import opened FatTree
  import opened FatTables
  import opened FatEnter
  import opened FatFind
  import opened FatWrite
  import opened FatFiles
  import opened FatRemove

  /** 130 clusters of one sector; one FAT of two sectors, no FSInfo. */
  function Small(): Volume {
    Volume(1, 1, 2, 1, 3, 2, 130, None, (name: Name) => name)
  }

  /** A FAT sector of end marks. */
  function Ends(): Sector {
    seq(512, j requires 0 <= j < 512 => if j % 4 == 3 then 0x0F else 0xFF)
  }

  function Blank(): Sector {
    seq(512, _ => 0)
  }

  function Pack(slots: seq<Slot>): Sector
    requires |slots| == 16
  {
    seq(512, j requires 0 <= j < 512 => slots[j / 32][j % 32])
  }

  /** Every cluster of the first FAT sector ends a chain, those of the second are
      free; the root directory is cluster 2. */
  function Disk(slots: seq<Slot>): Image
    requires |slots| == 16
  {
    [Blank(), Ends(), Blank(), Pack(slots)] + seq(129, _ => Blank())
  }

  function Root(): Tree {
    Tree({2}, map[2 := [2]])
  }

  lemma {:induction false} LbaIs(c: nat)
    requires c >= 2
    ensures Small().Lba(c) == c + 1
  {
    if c > 2 {
      LbaIs(c - 1);
    }
  }

  lemma DiskHolds(slots: seq<Slot>)
    requires |slots| == 16
    ensures Small().Holds(Disk(slots))
  {
    LbaIs(132);
    assert Times(1, 2) == 2;
  }

  lemma EndsWord(k: nat)
    requires k < 128
    ensures Raw(Ends(), k) == END_MARK && Raw(Blank(), k) == 0
  {
    assert Ends()[4 * k] == 0xFF && Ends()[4 * k + 1] == 0xFF && Ends()[4 * k + 2] == 0xFF && Ends()[4 * k + 3] == 0x0F;
  }

  lemma DiskFat(slots: seq<Slot>, c: nat)
    requires |slots| == 16 && c < 132
    ensures Small().Holds(Disk(slots)) && Fat(Small(), Disk(slots), c) == if c < 128 then END_MARK else 0
  {
    hide Raw, Ends, Blank, Pack;
    DiskHolds(slots);
    EndsWord(c % 128);
  }

  lemma PackSlot(slots: seq<Slot>, k: nat)
    requires |slots| == 16 && k < 16
    ensures SlotAt(Pack(slots), k) == slots[k]
  {
    forall j | 0 <= j < 32
      ensures Pack(slots)[32 * k + j] == slots[k][j]
    {
    }
  }

  lemma RootChain(slots: seq<Slot>)
    requires |slots| == 16
    ensures Small().Holds(Disk(slots)) && Small().AllIn([2]) && IsChain(Small(), Disk(slots), 2, [2])
    ensures ChainOf(Small(), Disk(slots), 2) == Some([2]) && ChainLbas(Small(), [2]) == [3]
  {
    hide Disk, Fat, Follow;
    DiskHolds(slots);
    DiskFat(slots, 2);
    ChainOfExact(Small(), Disk(slots), 2, [2]);
    LbaIs(2);
    assert Span(3, 1) == [3] && [2][1..] == [];
  }

  lemma RootSlots(slots: seq<Slot>)
    requires |slots| == 16
    ensures Small().Holds(Disk(slots)) && DirSlots(Small(), Disk(slots), [2]) == slots
  {
    hide Pack, Fat, ChainOf, ChainLbas;
    var v, d := Small(), Disk(slots);
    RootChain(slots);
    assert d[3] == Pack(slots);
    assert GatherChain(v, d, [2]) == [Pack(slots)];
    forall k | 0 <= k < 16
      ensures DirSlots(v, d, [2])[k] == slots[k]
    {
      PackSlot(slots, k);
    }
  }

  /** Such a volume is sound when its root lists empty files only. */
  lemma DiskSound(slots: seq<Slot>)
    requires |slots| == 16 && Tidy(slots)
    requires forall i | 0 <= i < |Items(slots)| ::
               !Items(slots)[i].entry.directory && Items(slots)[i].entry.cluster == 0 && Items(slots)[i].entry.size == 0
    ensures Sound(Small(), Disk(slots), Root())
  {
    hide Disk, Fat, ChainOf, ChainLbas, DirSlots, Items, Tidy;
    RootChain(slots);
    RootSlots(slots);
    forall copy: nat, index: nat | copy < 1 && index < 2
      ensures FatLba(Small(), copy, index) == 1 + index
    {
    }
    var v, d, t := Small(), Disk(slots), Root();
    assert |d| == 133 by {
      DiskSize(slots);
    }
    assert CopiesEqual(v, d);
  }

  lemma DiskSize(slots: seq<Slot>)
    requires |slots| == 16
    ensures |Disk(slots)| == 133
  {
  }

  // ---- The file "A" -----------------------------------------------------------------------------

  function NameA(): Name {
    [0x41]
  }

  lemma PartsA()
    ensures Parts(NameA()) == [NameA()] && Halves(NameA()) == ([], NameA()) && Parts([]) == []
  {
    var a := NameA();
    assert CutAt([]) == Cutting([], []);
    assert a[..0] == [] && a[|a| - 1] == 0x41;
    assert CutAt(a) == Cutting([], a);
    assert TrimSlashes(a) == a;
    assert AfterSlash([]) == 0 && AfterSlash(a) == 0;
  }

  lemma PlainA()
    ensures ValidName(NameA()) && IsText(NameA()) && Plain(NameA()) && Storable(NameA())
  {
    var a := NameA();
    assert a[..0] == [] && Chars([]) == 0 && Chars(a) == 1;
    assert !Forbidden(0x41);
  }

  /** The root is where "A" goes. */
  lemma PlaceA(slots: seq<Slot>)
    requires |slots| == 16
    ensures var v, d := Small(), Disk(slots);
            && v.Holds(d) && Place(v, d, NameA()) == Some((RootEntry(v), NameA()))
                && HomeChain(v, d, Parts(NameA())) == [2]
            && DirItems(v, d, [2]) == Items(slots)
  {
    hide Disk, ChainOf, Items, DirSlots, ValidName, Parts, Halves;
    PartsA();
    PlainA();
    RootChain(slots);
    RootSlots(slots);
    var v, d := Small(), Disk(slots);
    FindRoot(v, d);
    assert [NameA()][..0] == [];
  }

  // ---- A directory that can only grow unsafely --------------------------------------------------

  /** A slot in use that is no entry: a volume label. */
  function Label(): Slot {
    seq(32, j requires 0 <= j < 32 => if j == 11 then 0x08 else 0x41)
  }

  function Labels(): seq<Slot> {
    seq(16, _ => Label())
  }

  lemma {:induction false} LabelsRead(n: nat)
    requires n <= 16
    ensures ScanTo(Labels(), n) == Scan([], [], 0, false)
  {
    if n > 0 {
      LabelsRead(n - 1);
    }
  }

  lemma LabelsTidy()
    ensures Items(Labels()) == [] && Tidy(Labels()) && !HasRun(Labels(), 1) && EndRun(Labels(), 16, 0)
  {
    LabelsRead(16);
    assert !IsFree(Label()) && Labels()[15] == Label();
    forall s: nat
      ensures !FreeRun(Labels(), s, 1)
    {
      if s < 16 {
        assert Labels()[s] == Label();
      }
    }
  }

  lemma FirstFreeIs(slots: seq<Slot>)
    requires |slots| == 16
    ensures var v, d := Small(), Disk(slots);
            v.Holds(d) && FreeFrom(v, d, 2) != [] && FreeFrom(v, d, 2)[0] == 128
  {
    hide Disk, Fat, FreeFrom;
    var v, d := Small(), Disk(slots);
    DiskHolds(slots);
    FreeFromIs(v, d, 2);
    DiskFat(slots, 128);
    var r := FreeFrom(v, d, 2);
    assert v.InRange(128) && 128 in r;
    assert v.InRange(r[0]);
    DiskFat(slots, r[0]);
  }

  /** On this volume, sound in every way, a stop while the empty file "A" is
      created can leave the root directory leading to a free cluster: its last
      cluster, 2, has its entry in the first FAT sector, the one it is given,
      128, in the second, and the first sector is written first. */
  lemma UnsafeVolume()
    ensures var v, d := Small(), Disk(Labels());
            && Sound(v, d, Root()) && IsText(NameA()) && NameKept(v, d, NameA())
            && Growing(v, d, NameA(), 0) == Some(128) && !InOrder(v, d, NameA(), 0)
            && Needed(v, 0) == 0 && Writable(v, d, NameA(), 0)
  {
    hide Disk, Labels, Fat, ChainOf, DirSlots, Items, Tidy, HasRun, ShortFor, Parts, FreeFrom, Place, HomeChain, Plain,
      ValidName;
    var v, d := Small(), Disk(Labels());
    LabelsTidy();
    DiskSound(Labels());
    PlainA();
    PlaceA(Labels());
    RootSlots(Labels());
    FirstFreeIs(Labels());
    ShortA();
    FreeCount(v, d);
    EndRoomIs(Labels(), 16, 0, 1, 16);
    assert Enters(v, d, [2], NameA(), 0);
  }

  lemma ShortA()
    ensures TakenIn([]) == {} && ShortFor(NameA(), {}).Some? && !ShortFor(NameA(), {}).value.long
  {
    hide Field;
    PlainA();
  }

  // ---- Two entries of one name ------------------------------------------------------------------

  /** The short slot of an empty file "A". */
  function FileA(): Slot {
    seq(32, j requires 0 <= j < 32 => if j == 0 then 0x41 else if j < 11 then 0x20 else if j == 11 then 0x20 else 0)
  }

  function Twins(): seq<Slot> {
    [FileA(), FileA()] + seq(14, _ => seq(32, _ => 0))
  }

  lemma FileARead()
    ensures ShortName(FileA()) == NameA() && SlotEntry(FileA()) == Entry(0, 0, false)
  {
    hide TrimEnd, FileA;
    var raw := FileA();
    FileABytes();
    var base, extension := raw[..8], raw[8..11];
    TrimSpaces(base, 1);
    TrimSpaces(extension, 0);
    assert base[..1] == [0x41] && extension[..0] == [];
  }

  lemma FileABytes()
    ensures var raw := FileA();
            && raw[0] == 0x41 && (forall k | 1 <= k < 12 :: raw[k] == 0x20) && (forall k | 12 <= k < 32 :: raw[k] == 0)
  {
  }

  lemma TwinsRead()
    ensures Tidy(Twins()) && |Items(Twins())| == 2
    ensures forall i | 0 <= i < 2 :: Items(Twins())[i].name == NameA() && Items(Twins())[i].entry == Entry(0, 0, false)
  {
    hide ShortName, SlotEntry;
    var slots := Twins();
    FileARead();
    assert ScanTo(slots, 0) == Scan([], [], 0, false);
    assert !IsDotName(NameA());
    assert ScanTo(slots, 1) == ReadSlot(ScanTo(slots, 0), FileA(), 0);
    assert ScanTo(slots, 2) == ReadSlot(ScanTo(slots, 1), FileA(), 1);
    assert ScanTo(slots, 3) == ReadSlot(ScanTo(slots, 2), slots[2], 2);
    DoneStays(slots, 3, 16);
  }

  /** On this volume `remove` of "A" succeeds, and a second "A" comes to light. */
  lemma TwinsVolume()
    ensures var v, d := Small(), Disk(Twins());
            Sound(v, d, Root()) && CanRemove(v, d, NameA()) && !SoleName(v, d, NameA())
  {
    hide Disk, Twins, Fat, ChainOf, DirSlots, Items, Tidy, Parts, Place, HomeChain;
    var v, d := Small(), Disk(Twins());
    TwinsRead();
    DiskSound(Twins());
    PlaceA(Twins());
    var items := Items(Twins());
    assert v.SameName(items[0].name, NameA()) && v.SameName(items[1].name, NameA());
  }

  // ---- A name that ends in a dot ----------------------------------------------------------------

  /** "A." is a valid name, stored as "A" and read back so. */
  lemma DotLost()
    ensures var name := [0x41, 0x2E]; ValidName(name) && Plain(name) && !Storable(name) && ReadBack(name) == NameA()
  {
    var name: Name := [0x41, 0x2E];
    assert name[..1] == [0x41] && name[2..] == [] && name[..1][..0] == [] && [0x41][..0] == [];
    assert Chars([]) == 0 && Chars([0x41]) == 1 && Chars(name) == 2;
    assert Dots([]) == 0 && Dots([0x41]) == 0 && Dots(name) == 1;
    assert LastDot(name) == Some(1) && Split(name) == ([0x41], []);
    assert !Forbidden(0x41) && !Forbidden(0x2E);
  }
}
