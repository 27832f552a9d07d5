/** Creating and replacing files, creating directories: in what order the disk
    is written, and what a stop half-way leaves. */
module FatWrite {
  import opened Base
  import Numbers
  import opened Blocks
  import opened FatLayout
  import opened FatChain
  import opened FatData
  import opened FatNames
  import opened FatDirectory
  import opened FatTree
  import opened FatFrame
  import opened FatTables
  import opened FatFree
  import opened FatSlots
  import opened FatSwitch
  import opened FatEntry
  import opened FatAtomic
  import opened FatPrepare
  import opened FatAdd
  import opened FatTorn
  import opened FatEnter

  /** FSInfo's count, when it keeps one, is the number of free clusters. */
  ghost predicate CountTrue(v: Volume, d: Image)
    requires v.Holds(d)
  {
    FsCount(v, d).Some? ==> FsCount(v, d).value == |FreeSet(v, d)|
  }

  /** What every completed operation keeps: a well-formed volume, its
      directories in order, its FAT copies equal, its free count true. */
  ghost predicate Sound(v: Volume, d: Image, t: Tree) {
    WellFormed(v, d, t) && v.Holds(d) && TidyAll(v, d, t) && CopiesEqual(v, d) && CountTrue(v, d)
  }

  // ---- After the data and its FAT entries -------------------------------------------------------

  /** From `d`, `w` changed nothing a reader can see; `chain` is ready. */
  ghost predicate Ready(v: Volume, d: Image, t: Tree, chain: seq<nat>, w: seq<Event>, target: Path, node: Node)
    requires v.Holds(d)
  {
    var e := Replay(d, w);
    && Atomic(v, d, d, w, target, node) && v.Holds(e) && Reads(v, d, e)
    && WellFormed(v, e, t) && TidyAll(v, e, t) && (forall path :: Find(v, e, path) == Find(v, d, path))
    && (forall g | g in t.dirs && g in t.chains :: DirSlots(v, e, t.chains[g]) == DirSlots(v, d, t.chains[g]))
    && NewChain(v, e, t, First(chain), chain)
    && (CopiesEqual(v, d) ==> CopiesEqual(v, e))
    && FsCount(v, e) == FsCount(v, d)
    && FreeSet(v, e) == FreeSet(v, d) - Elements(chain)
  }

  function First(chain: seq<nat>): nat {
    if chain == [] then 0 else chain[0]
  }

  lemma PreparedReady(v: Volume, d: Image, t: Tree, chain: seq<nat>, data: seq<byte>, w: seq<Event>, target: Path,
      node: Node)
    requires WellFormed(v, d, t) && v.Holds(d) && TidyAll(v, d, t) && Prepared(v, d, chain, data, w)
    ensures Ready(v, d, t, chain, w, target, node)
  {
    hide WellFormed, Replay, Contents, Find, NewChain, Links, Agree, DirSlots, Tidy, CopiesEqual, Fat, FreeSet, FsCount,
      Bytes, GatherChain, Atomic, Untouched;
    PreparedNew(v, d, t, chain, data, w);
    ReadsSame(v, d, t, target, node);
    OutsideAtomic(v, d, d, t, w, Elements(chain), target, node);
    WholeBy(v, Replay(d, w), t);
    AgreeEnd(v, d, w, Elements(chain));
    TidyOutside(v, d, Replay(d, w), t, Elements(chain));
    forall g | g in t.dirs && g in t.chains
      ensures DirSlots(v, Replay(d, w), t.chains[g]) == DirSlots(v, d, t.chains[g])
    {
      ListDirIs(v, d, t, g);
      OffChain(t, g, Elements(chain));
      SameSlots(v, d, Replay(d, w), t.chains[g], Elements(chain));
    }
  }

  lemma OffChain(t: Tree, g: nat, touched: set<nat>)
    requires Untouched(t, touched) && g in t.chains
    ensures forall c | c in t.chains[g] :: c !in touched
  {
  }

  /** What a prepared chain holds, read through an entry of its size. */
  lemma PreparedFile(v: Volume, d: Image, t: Tree, chain: seq<nat>, data: seq<byte>, w: seq<Event>)
    requires v.Holds(d) && v.Holds(Replay(d, w)) && Prepared(v, d, chain, data, w)
    requires NewChain(v, Replay(d, w), t, First(chain), chain)
    ensures var entry := Entry(First(chain), |data|, false);
            NewEntry(v, Replay(d, w), entry, chain) && NodeAt(v, Replay(d, w), Some(entry)) == Some(File(data))
  {
    hide Replay, Fat, Links, AgreeAll, CopiesEqual, FreeSet, FsCount, GatherChain, Linked, Padded;
    var e := Replay(d, w);
    ChainLbasLength(v, chain);
    BytesLength(v, e, chain);
    if chain == [] {
      assert |data| == 0 && data == [];
    } else {
      ChainOfExact(v, e, chain[0], chain);
    }
  }

  lemma BytesLength(v: Volume, d: Image, chain: seq<nat>)
    requires v.Holds(d) && v.AllIn(chain)
    ensures |Bytes(v, d, chain)| == 512 * |ChainLbas(v, chain)|
    ensures chain == [] ==> Bytes(v, d, chain) == []
  {
    hide GatherChain;
  }

  /** How many clusters `n` bytes take holds them, and no fewer do. */
  lemma NeededHolds(v: Volume, n: nat)
    requires v.spc > 0
    ensures n <= 512 * Times(Needed(v, n), v.spc)
    ensures Needed(v, n) == 0 <==> n == 0
    ensures n > 0 ==> 512 * Times(Needed(v, n) - 1, v.spc) < n
  {
    var m := v.spc * 512;
    var q := Needed(v, n);
    TimesFormula(q, v.spc);
    CeilBounds(n, m);
    assert q * v.spc * 512 == q * m;
    if n > 0 {
      TimesFormula(q - 1, v.spc);
      assert (q - 1) * v.spc * 512 == (q - 1) * m;
    }
  }

  lemma CeilBounds(n: nat, m: nat)
    requires m > 0
    ensures var q := (n + m - 1) / m; n <= q * m < n + m && (q == 0 <==> n == 0)
  {
    var q := (n + m - 1) / m;
    assert n + m - 1 == q * m + (n + m - 1) % m;
    if n == 0 {
      Numbers.DivIs(m - 1, m, 0, m - 1);
    }
    assert q == 0 ==> q * m == 0;
  }

  // ---- An entry led to its new chain ------------------------------------------------------------

  /** The short slot rewritten: the file reads as its new contents, all else as
      before, in one sector write. */
  lemma Repointed(v: Volume, d: Image, t: Tree, dir: nat, parent: Path, name: Name, i: nat, chain: seq<nat>, size: nat,
      stamp: Stamp, node: Node)
    requires WellFormed(v, d, t) && v.Holds(d) && TidyAll(v, d, t) && dir in t.dirs && dir in t.chains
    requires LeadsTo(v, d, parent, dir)
    requires Lookup(v, ItemsIn(v, d, t, dir), name) == Some(i) && !ItemsIn(v, d, t, dir)[i].entry.directory
    requires NewChain(v, d, t, First(chain), chain) && First(chain) < 0x1_0000_0000 && size < 0x1_0000_0000
    requires NewEntry(v, d, Entry(First(chain), size, false), chain)
    requires NodeAt(v, d, Some(Entry(First(chain), size, false))) == Some(node)
    ensures ItemsIn(v, d, t, dir)[i].slot < |DirSlots(v, d, t.chains[dir])| && v.AllIn(t.chains[dir])
    ensures Distinct(t.chains[dir])
    ensures var s := ItemsIn(v, d, t, dir)[i].slot;
            && s < 16 * |ChainLbas(v, t.chains[dir])|
            && RepointDone(v, d, t, dir, parent + [name], i, chain, node,
                           [SlotPut(v, d, t.chains[dir], s, Repoint(DirSlots(v, d, t.chains[dir])[s], First(chain),
                               size, stamp))])
  {
    hide WellFormed, Lookup, NewChain, NewEntry, NodeAt, LeadsTo, DirSlots, SlotPut, Repoint, Replay, Items, ChainLbas,
      Tidy, Reads, ReadsWith, Atomic,
         CopiesEqual, FsCount, FreeSet, Agree, SameHead, SwitchItems, Stepped, Fat;
    var home := t.chains[dir];
    var slots := DirSlots(v, d, home);
    LastOk(v, d, t, dir);
    RepointSwitch(v, slots, i, name, First(chain), size, stamp);
    var s := Items(slots)[i].slot;
    ItemAt(slots, i);
    TidyOf(v, d, t, dir);
    RepointTidy(slots, s, First(chain), size, stamp);
    SlotsCount(v, d, home);
    var put := SlotPut(v, d, home, s, Repoint(slots[s], First(chain), size, stamp));
    SlotWritten(v, d, home, s, Repoint(slots[s], First(chain), size, stamp));
    var e := Apply(d, put);
    ReplayOne(d, put);
    BecameAgree(v, d, e, home, slots[s := Repoint(slots[s], First(chain), size, stamp)]);
    BecameHolds(v, d, e, home, slots[s := Repoint(slots[s], First(chain), size, stamp)]);
    SameHeadFat(v, d, e);
    assert Switch(v, d, e, t, dir, name, i, i + 1, Entry(First(chain), size, false));
    BeforePut(v, d, home, put, ItemsIn(v, d, t, dir));
    SwitchedAtomic(v, d, t, dir, parent, name, [put], i, i + 1, Entry(First(chain), size, false), chain, node);
    TidyStepped(v, d, e, t, dir, ItemsIn(v, d, t, dir)[i].entry.cluster, First(chain), chain, false);
  }

  ghost predicate RepointDone(v: Volume, d: Image, t: Tree, dir: nat, target: Path, i: nat, chain: seq<nat>, node: Node,
      w: seq<Event>)
    requires v.Holds(d) && dir in t.chains && i < |ItemsIn(v, d, t, dir)|
  {
    var e := Replay(d, w);
    var u := Stepped(t, ItemsIn(v, d, t, dir)[i].entry.cluster, First(chain), chain, false);
    && Atomic(v, d, d, w, target, node) && v.Holds(e) && ReadsWith(v, d, e, target, node)
    && WellFormed(v, e, u) && TidyAll(v, e, u)
    && SameHead(v, d, e)
  }

  lemma LastOk(v: Volume, d: Image, t: Tree, dir: nat)
    requires WellFormed(v, d, t) && v.Holds(d) && dir in t.chains
    ensures t.chains[dir] != [] && v.AllIn(t.chains[dir]) && Distinct(t.chains[dir])
    ensures IsChain(v, d, dir, t.chains[dir])
    ensures ChainOf(v, d, dir) == Some(t.chains[dir])
  {
    hide WellFormed, Linked;
    ListDirIs(v, d, t, dir);
    LastUsed(v, d, t, dir);
  }

  lemma SlotsCount(v: Volume, d: Image, chain: seq<nat>)
    requires v.Holds(d) && v.AllIn(chain)
    ensures |DirSlots(v, d, chain)| == 16 * |ChainLbas(v, chain)|
  {
    hide ChainLbas;
  }

  lemma ItemAt(slots: seq<Slot>, i: nat)
    requires i < |Items(slots)|
    ensures var s := Items(slots)[i].slot;
            s < |slots| && !IsFree(slots[s]) && !IsLong(slots[s])
  {
    hide ScanTo, SlotEntry;
    ItemSlots(slots, |slots|);
    assert ItemOk(slots, Items(slots)[i]);
  }

  lemma BeforePut(v: Volume, d: Image, home: seq<nat>, put: Event, items: seq<Item>)
    requires v.Holds(d) && Items(DirSlots(v, d, home)) == items
    ensures forall m | 0 <= m < |[put]| ::
              exists slots :: DirBecame(v, d, Replay(d, [put][..m]), home, slots) && Items(slots) == items
  {
    hide DirSlots, Items;
    forall m | 0 <= m < |[put]|
      ensures DirBecame(v, d, Replay(d, [put][..m]), home, DirSlots(v, d, home))
    {
      assert [put][..0] == [];
    }
  }

  // ---- Writes that no path can see --------------------------------------------------------------

  /** Writes outside the chains in use, after the switch: what reads as new
      goes on reading as new. */
  lemma Outside(v: Volume, base: Image, d: Image, t: Tree, w: seq<Event>, touched: set<nat>, target: Path, node: Node)
    requires v.Holds(base) && WellFormed(v, d, t) && v.Holds(d) && TidyAll(v, d, t)
    requires ReadsWith(v, base, d, target, node)
    requires AgreeAll(v, d, w, touched) && Untouched(t, touched)
    ensures v.Holds(Replay(d, w)) && WellFormed(v, Replay(d, w), t) && TidyAll(v, Replay(d, w), t)
    ensures ReadsWith(v, base, Replay(d, w), target, node) && Atomic(v, base, d, w, target, node)
  {
    hide WellFormed, Replay, Contents, Agree, DirSlots, Tidy, Atomic, Untouched, SamePath, Find;
    OutsideAtomic(v, base, d, t, w, touched, target, node);
    AgreeEnd(v, d, w, touched);
    TidyOutside(v, d, Replay(d, w), t, touched);
    WholeBy(v, Replay(d, w), t);
  }

  lemma NoneUntouched(t: Tree)
    ensures Untouched(t, {})
  {
  }

  /** The chain an entry leads to, or none. */
  ghost function ChainAt(t: Tree, c: nat): seq<nat> {
    if c in t.chains then t.chains[c] else []
  }

  /** The chain let go of is in no use any more. */
  lemma GoneUntouched(v: Volume, d: Image, t: Tree, gone: nat, chain: seq<nat>)
    requires WellFormed(v, d, t) && v.Holds(d) && NewChain(v, d, t, First(chain), chain)
    ensures Untouched(Stepped(t, gone, First(chain), chain, false), Elements(ChainAt(t, gone)))
    ensures forall k | 0 <= k < |ChainAt(t, gone)| :: ChainAt(t, gone)[k] !in chain
  {
    hide EntriesOk, RefsUnique, IsChain;
    var u := Stepped(t, gone, First(chain), chain, false);
    if gone in t.chains {
      assert First(chain) != 0 ==> NoShare(t.chains[gone], chain);
      forall f, c | f in u.chains && c in u.chains[f]
        ensures c !in Elements(t.chains[gone])
      {
        if f == First(chain) && First(chain) != 0 {
          assert NoShare(chain, t.chains[gone]);
        } else {
          assert NoShare(t.chains[f], t.chains[gone]);
        }
      }
    }
  }

  /** A sound entry leads to its chain, wherever the FATs are the same. */
  lemma EntryChain(v: Volume, d: Image, e: Image, t: Tree, entry: Entry)
    requires WellFormed(v, d, t) && v.Holds(d) && v.Holds(e) && SameHead(v, d, e) && EntryOk(v, t, entry)
    ensures var c := entry.cluster;
            && ChainOf(v, e, c) == Some(ChainAt(t, c)) && v.AllIn(ChainAt(t, c)) && Distinct(ChainAt(t, c))
            && forall k | 0 <= k < |ChainAt(t, c)| :: Fat(v, d, ChainAt(t, c)[k]) != 0
  {
    hide EntriesOk, RefsUnique, ChainsOk, Fat, ChainLbas, Linked;
    var c := entry.cluster;
    SameHeadFat(v, d, e);
    ZeroNoChain(v, d, t);
    if c in t.chains {
      LastOk(v, d, t, c);
      ChainFrame(v, d, e, c, t.chains[c]);
      UsedFat(v, d, c, t.chains[c]);
    }
  }

  lemma OldChain(v: Volume, d: Image, e: Image, t: Tree, dir: nat, i: nat)
    requires WellFormed(v, d, t) && v.Holds(d) && v.Holds(e) && SameHead(v, d, e)
    requires dir in t.dirs && dir in t.chains && i < |ItemsIn(v, d, t, dir)|
    ensures var c := ItemsIn(v, d, t, dir)[i].entry.cluster;
            && ChainOf(v, e, c) == Some(ChainAt(t, c)) && v.AllIn(ChainAt(t, c)) && Distinct(ChainAt(t, c))
            && forall k | 0 <= k < |ChainAt(t, c)| :: Fat(v, d, ChainAt(t, c)[k]) != 0
  {
    hide RefsUnique, ChainsOk, DirItems, Fat, ChainLbas, ChainOf;
    EntryChain(v, d, e, t, ItemsIn(v, d, t, dir)[i].entry);
  }

  lemma UsedFat(v: Volume, d: Image, first: nat, chain: seq<nat>)
    requires v.Holds(d) && IsChain(v, d, first, chain)
    ensures forall k | 0 <= k < |chain| :: Fat(v, d, chain[k]) != 0
  {
    hide Fat;
    forall k | 0 <= k < |chain|
      ensures Fat(v, d, chain[k]) != 0
    {
      NoFree(v, d, chain, k);
    }
  }

  /** Every file of a well-formed volume can be read. */
  lemma FileReads(v: Volume, d: Image, t: Tree, entry: Entry)
    requires WellFormed(v, d, t) && v.Holds(d) && EntryOk(v, t, entry) && !entry.directory
    ensures FileBytes(v, d, entry, entry.size).Some?
  {
    hide WellFormed, Bytes, ChainOf, IsChain, ChainLbas;
    if entry.cluster != 0 {
      LastOk(v, d, t, entry.cluster);
      BytesLength(v, d, t.chains[entry.cluster]);
    }
  }

  // ---- The free count ---------------------------------------------------------------------------

  ghost function Range(n: nat): set<nat> {
    set c: nat | c < n + 2 && Numbered(c, n)
  }

  ghost predicate Numbered(c: nat, n: nat) {
    2 <= c < n + 2
  }

  lemma {:induction false} RangeCount(n: nat)
    ensures |Range(n)| == n
  {
    if n > 0 {
      RangeCount(n - 1);
      assert Range(n) == Range(n - 1) + {n + 1};
    } else {
      assert Range(n) == {};
    }
  }

  lemma {:induction false} SubsetCount<T>(a: set<T>, b: set<T>)
    requires a <= b
    ensures |a| <= |b|
  {
    if a != {} {
      var x :| x in a;
      SubsetCount(a - {x}, b - {x});
    }
  }

  /** Taking clusters away, and adding others, moves the number of free ones by
      just as many; there are never more than the volume has. */
  lemma CountMoves(v: Volume, free: set<nat>, taken: set<nat>, added: set<nat>)
    requires forall c | c in free + added :: v.InRange(c)
    requires taken <= free && free !! added
    ensures |free - taken + added| == |free| - |taken| + |added| && |free| + |added| <= v.clusters
  {
    RangeCount(v.clusters);
    assert free + added <= Range(v.clusters);
    SubsetCount(free + added, Range(v.clusters));
    assert |free + added| == |free| + |added|;
    assert |free - taken| == |free| - |taken| by {
      assert free == (free - taken) + taken;
    }
    assert |(free - taken) + added| == |free - taken| + |added|;
  }

  lemma FreedSet(v: Volume, d: Image, e: Image, chain: seq<nat>)
    requires v.Holds(d) && v.Holds(e) && v.AllIn(chain)
    requires forall c: nat | v.InRange(c) :: Fat(v, e, c) == if c in chain then 0 else Fat(v, d, c)
    ensures FreeSet(v, e) == FreeSet(v, d) + Elements(chain)
  {
    hide Fat;
    forall c: nat
      ensures c in FreeSet(v, e) <==> c in FreeSet(v, d) + Elements(chain)
    {
      if c in chain {
        var k :| 0 <= k < |chain| && chain[k] == c;
        assert v.InRange(chain[k]);
      }
    }
  }

  /** Two moves of a true count that stay in range: the clamp does not bite. */
  lemma MovedTwice(count: Option<nat>, free: nat, a: int, b: int, high: nat)
    requires count.Some? ==> count.value == free
    requires 0 <= free <= high && 0 <= free + a <= high && 0 <= free + a + b <= high
    ensures var c := Moved(Moved(count, a, high), b, high); c.Some? ==> c.value == free + a + b
  {
  }

  /** Replacing: `old` freed, `chain` taken; the count follows, the clamp never
      biting. */
  lemma CountReplaced(v: Volume, d0: Image, d4: Image, chain: seq<nat>, old_: seq<nat>)
    requires v.Holds(d0) && v.Holds(d4) && CountTrue(v, d0) && Distinct(chain) && Distinct(old_) && v.AllIn(old_)
    requires Elements(chain) <= FreeSet(v, d0) && forall k | 0 <= k < |old_| :: old_[k] !in FreeSet(v, d0)
    requires FreeSet(v, d4) == FreeSet(v, d0) - Elements(chain) + Elements(old_)
    requires FsCount(v, d4) == Moved(Moved(FsCount(v, d0), |old_|, v.clusters), -|chain|, v.clusters)
    ensures CountTrue(v, d4)
  {
    hide Fat, FsCount, FreeSet, Moved;
    DistinctCount(chain);
    DistinctCount(old_);
    FreeIn(v, d0);
    CountMoves(v, FreeSet(v, d0), Elements(chain), Elements(old_));
    SubsetCount(Elements(chain), FreeSet(v, d0));
    MovedTwice(FsCount(v, d0), |FreeSet(v, d0)|, |old_|, -|chain|, v.clusters);
  }

  /** Creating: `chain` taken, and the directory's new cluster. */
  lemma CountCreated(v: Volume, d0: Image, d3: Image, chain: seq<nat>, grown: Option<nat>)
    requires v.Holds(d0) && v.Holds(d3) && CountTrue(v, d0) && Distinct(chain)
    requires Elements(chain) <= FreeSet(v, d0) && (grown.Some? ==> grown.value in FreeSet(v, d0) - Elements(chain))
    requires FreeSet(v, d3) == FreeSet(v, d0) - Elements(chain) - Only(grown)
    requires FsCount(v, d3) == Moved(Moved(FsCount(v, d0), -|Only(grown)|, v.clusters), -|chain|, v.clusters)
    ensures CountTrue(v, d3)
  {
    hide Fat, FsCount, FreeSet, Moved;
    DistinctCount(chain);
    FreeIn(v, d0);
    TakenTwice(v, FreeSet(v, d0), Elements(chain), Only(grown));
    MovedTwice(FsCount(v, d0), |FreeSet(v, d0)|, -|Only(grown)|, -|chain|, v.clusters);
  }

  lemma TakenTwice(v: Volume, free: set<nat>, a: set<nat>, b: set<nat>)
    requires (forall c | c in free :: v.InRange(c)) && a <= free && b <= free - a
    ensures |free - a - b| == |free| - |a| - |b| && |a| + |b| <= |free| <= v.clusters
  {
    CountMoves(v, free, a + b, {});
    SubsetCount(a + b, free);
    assert free - a - b == free - (a + b) + {};
  }

  lemma FreeIn(v: Volume, d: Image)
    requires v.Holds(d)
    ensures forall c | c in FreeSet(v, d) :: v.InRange(c)
  {
    hide Fat;
  }
}
