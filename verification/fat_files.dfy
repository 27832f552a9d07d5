/** `write_file` and `make_dir`: the whole operations. */
module FatFiles {
  import opened Base
  import opened Blocks
  import opened FatLayout
  import opened FatChain
  import opened FatData
  import opened FatNames
  import opened FatDirectory
  import opened FatRoundTrip
  import opened FatTree
  import opened FatFrame
  import opened FatTables
  import opened FatFree
  import opened FatSlots
  import opened FatSwitch
  import opened FatEntry
  import opened FatAtomic
  import opened FatPrepare
  import opened FatAdd
  import opened FatEnter
  import opened FatFind
  import opened FatWrite

  const WRITE_LIMIT: nat := 0x40_0000

  // ---- What the operations find -----------------------------------------------------------------

  /** The clusters of the directory a path's last part is in. */
  ghost function HomeChain(v: Volume, d: Image, path: Path): seq<nat>
    requires v.Holds(d)
  {
    if path == [] then []
    else
      var parent := Find(v, d, path[..|path| - 1]);
      if parent.None? then []
      else if ChainOf(v, d, parent.value.cluster).None? then [] else ChainOf(v, d, parent.value.cluster).value
  }

  ghost function SlotsFor(name: Name, short: Short): nat {
    1 + if short.long then Pieces(|name|) else 0
  }

  /** A new entry called `name` finds an alias and room in the directory, once
      `needed` clusters are taken. */
  ghost predicate Enters(v: Volume, d: Image, home: seq<nat>, name: Name, needed: nat)
    requires v.Holds(d)
  {
    var slots := DirSlots(v, d, home);
    var short := ShortFor(name, TakenIn(Items(slots)));
    short.Some? && (HasRun(slots, SlotsFor(name, short.value))
                    || (|FreeSet(v, d)| > needed && EndRoom(slots, SlotsFor(name, short.value), 16 * v.spc)))
  }

  /** The cluster the directory is given when `name` is entered in it, once
      `needed` clusters are taken; None when it does not grow. */
  ghost function GrowthFor(v: Volume, d: Image, home: seq<nat>, name: Name, needed: nat): Option<nat>
    requires v.Holds(d)
  {
    var slots := DirSlots(v, d, home);
    var short := ShortFor(name, TakenIn(Items(slots)));
    if short.None? || HasRun(slots, SlotsFor(name, short.value)) || |FreeFrom(v, d, 2)| <= needed then None
    else Some(FreeFrom(v, d, 2)[needed])
  }

  /** The cluster the directory of a path is given when `needed` clusters are
      stored there: none when the name is there already. */
  ghost function Growing(v: Volume, d: Image, text: seq<nat>, needed: nat): Option<nat>
    requires v.Holds(d)
  {
    var place, home := Place(v, d, text), HomeChain(v, d, Parts(text));
    if place.None? || LookupEntry(v, DirItems(v, d, home), place.value.1).Some? then None
    else GrowthFor(v, d, home, place.value.1, needed)
  }

  /** The directory of a path does not have to grow, or it grows by a cluster
      whose FAT sector does not come after that of its last one. */
  ghost predicate InOrder(v: Volume, d: Image, text: seq<nat>, needed: nat)
    requires v.Holds(d)
  {
    SafeGrowth(HomeChain(v, d, Parts(text)), Growing(v, d, text, needed))
  }

  /** Replacing is always in order. */
  lemma InOrderReplaced(v: Volume, d: Image, text: seq<nat>, needed: nat)
    requires v.Holds(d)
    requires Place(v, d, text).None?
             || LookupEntry(v, DirItems(v, d, HomeChain(v, d, Parts(text))), Place(v, d, text).value.1).Some?
    ensures InOrder(v, d, text, needed)
  {
    hide Place, HomeChain, DirItems, LookupEntry, GrowthFor;
  }

  /** So is a new entry for which the directory has room, or for which no
      cluster is left. */
  lemma InOrderRoom(v: Volume, d: Image, text: seq<nat>, needed: nat)
    requires v.Holds(d)
    requires Place(v, d, text).Some? ==>
               GrowthFor(v, d, HomeChain(v, d, Parts(text)), Place(v, d, text).value.1, needed) == None
    ensures InOrder(v, d, text, needed)
  {
    hide Place, HomeChain, DirItems, LookupEntry, GrowthFor;
  }

  lemma InOrderNew(v: Volume, d: Image, text: seq<nat>, needed: nat)
    requires v.Holds(d) && Place(v, d, text).Some?
    requires LookupEntry(v, DirItems(v, d, HomeChain(v, d, Parts(text))), Place(v, d, text).value.1).None?
    ensures var home := HomeChain(v, d, Parts(text));
            InOrder(v, d, text, needed) <==> SafeGrowth(home, GrowthFor(v, d, home, Place(v, d, text).value.1, needed))
  {
    hide Place, HomeChain, DirItems, LookupEntry, GrowthFor, SafeGrowth;
  }

  /** With too few clusters left there is nothing to grow by. */
  lemma InOrderFull(v: Volume, d: Image, text: seq<nat>, needed: nat)
    requires v.Holds(d) && |FreeFrom(v, d, 2)| <= needed
    ensures InOrder(v, d, text, needed)
  {
    hide Place, HomeChain, DirItems, LookupEntry, FreeFrom;
  }

  /** When `write_file` succeeds. */
  ghost predicate Writable(v: Volume, d: Image, text: seq<nat>, n: nat)
    requires v.Holds(d)
  {
    var place := Place(v, d, text);
    && n <= WRITE_LIMIT && place.Some? && v.spc > 0 && Needed(v, n) <= |FreeSet(v, d)|
    && var home := HomeChain(v, d, Parts(text));
       var at := LookupEntry(v, DirItems(v, d, home), place.value.1);
       if at.Some? then !at.value.directory else Enters(v, d, home, place.value.1, Needed(v, n))
  }

  /** When `write_file` goes as far as storing the data: the path has a place, no
      directory is in it, and there are clusters enough. */
  ghost predicate Stores(v: Volume, d: Image, text: seq<nat>, n: nat)
    requires v.Holds(d)
  {
    var place := Place(v, d, text);
    && n <= WRITE_LIMIT && place.Some? && v.spc > 0 && Needed(v, n) <= |FreeSet(v, d)|
    && var at := LookupEntry(v, DirItems(v, d, HomeChain(v, d, Parts(text))), place.value.1);
       at.Some? ==> !at.value.directory
  }

  /** The name, when it would be a new one, is one that reads back. */
  ghost predicate NameKept(v: Volume, d: Image, text: seq<nat>)
    requires v.Holds(d)
  {
    var place := Place(v, d, text);
    place.Some? && LookupEntry(v, DirItems(v, d, HomeChain(v, d, Parts(text))), place.value.1).None? ==>
      Storable(place.value.1)
  }

  /** A directory found at the parent of a path. */
  lemma PlaceIs(v: Volume, d: Image, t: Tree, text: seq<nat>, directory: Directory)
    requires Sound(v, d, t) && Place(v, d, text).Some?
    requires IsDirectory(v, d, Place(v, d, text).value.0.cluster, directory)
    ensures var (parent, name) := Place(v, d, text).value;
            && ValidName(name) && name == Halves(text).1 && Parts(text) == Parts(Halves(text).0) + [name]
            && LeadsTo(v, d, Parts(Halves(text).0), parent.cluster) && parent.cluster in t.dirs
                && parent.cluster in t.chains
            && directory.chain == t.chains[parent.cluster] == HomeChain(v, d, Parts(text))
            && directory.items == ItemsIn(v, d, t, parent.cluster) == DirItems(v, d, directory.chain)
            && directory.slots == DirSlots(v, d, directory.chain)
            && v.fats > 0 && v.spc > 0
            && LookupEntry(v, directory.items, name) ==
               if Lookup(v, directory.items, name).Some? then Some(directory.items[Lookup(v, directory.items,
                   name).value].entry) else None
  {
    hide WellFormed, Find, DirSlots, Items, Parts, Halves, ValidName, Lookup, TidyAll, CopiesEqual, CountTrue;
    HalvesParts(text) by {
      NotEmpty(Halves(text).1);
    }
    var before := Parts(Halves(text).0);
    assert Parts(text)[..|Parts(text)| - 1] == before;
    FindOk(v, d, t, before);
    TreeDirs(v, d, t);
    ListDirIs(v, d, t, Place(v, d, text).value.0.cluster);
  }

  lemma NotEmpty(name: Name)
    ensures ValidName(name) ==> name != []
  {
    hide Chars;
  }

  // ---- Putting the steps together ---------------------------------------------------------------

  /** `e` is `d` with `node` at `target`, and as sound as it was. */
  ghost predicate Completed(v: Volume, d: Image, e: Image, target: Path, node: Node, u: Tree)
    requires v.Holds(d)
  {
    v.Holds(e) && ReadsWith(v, d, e, target, node) && Sound(v, e, u)
  }

  /** FSInfo's last adjustment shows in nothing but the count. */
  lemma Adjusted(v: Volume, base: Image, d: Image, u: Tree, delta: int, target: Path, node: Node)
    requires v.Holds(base) && WellFormed(v, d, u) && v.Holds(d) && TidyAll(v, d, u)
    requires ReadsWith(v, base, d, target, node)
    ensures var w := AdjustLog(v, d, delta);
            var e := Replay(d, w);
            && v.Holds(e) && WellFormed(v, e, u) && TidyAll(v, e, u) && ReadsWith(v, base, e, target, node)
                && Atomic(v, base, d, w, target, node)
            && FreeSet(v, e) == FreeSet(v, d) && (CopiesEqual(v, d) ==> CopiesEqual(v, e))
            && FsCount(v, e) == Moved(FsCount(v, d), delta, v.clusters)
  {
    hide WellFormed, AdjustLog, Replay, TidyAll, ReadsWith, Atomic, CopiesEqual, FsCount, Untouched, Agree, FreeSet;
    var w := AdjustLog(v, d, delta);
    AdjustEffect(v, d, delta);
    NoneUntouched(u);
    Outside(v, base, d, u, w, {}, target, node);
    AgreeEnd(v, d, w, {});
    SameFree(v, d, Replay(d, w));
  }

  lemma SameFree(v: Volume, d: Image, e: Image)
    requires v.Holds(d) && Agree(v, d, e, {}) && v.Holds(e)
    ensures FreeSet(v, e) == FreeSet(v, d)
  {
    hide Fat, Owns;
  }

  /** The writes after the data, when a file is replaced: the entry, the old
      clusters, the count. */
  lemma Replaced(v: Volume, d0: Image, t: Tree, dir: nat, target: Path, i: nat, chain: seq<nat>, w1: seq<Event>,
      w2: seq<Event>, w3: seq<Event>, node: Node)
    requires Sound(v, d0, t) && Ready(v, d0, t, chain, w1, target, node) && Distinct(chain)
    requires Elements(chain) <= FreeSet(v, d0)
    requires dir in t.dirs && dir in t.chains
    requires var d1 := Replay(d0, w1);
             var d2 := Replay(d1, w2);
             && i < |ItemsIn(v, d1, t, dir)| && !ItemsIn(v, d1, t, dir)[i].entry.directory
             && RepointDone(v, d1, t, dir, target, i, chain, node, w2)
             && FreedBy(v, d2, ChainAt(t, ItemsIn(v, d1, t, dir)[i].entry.cluster), w3)
    ensures var d1 := Replay(d0, w1);
            var d3 := Replay(Replay(d1, w2), w3);
            && v.Holds(d3)
            && var w4 := AdjustLog(v, d3, -|chain|);
               && Atomic(v, d0, d1, w2 + w3 + w4, target, node)
               && Completed(v, d0, Replay(d3, w4), target, node, Stepped(t, ItemsIn(v, d1, t, dir)[i].entry.cluster,
                   First(chain), chain, false))
  {
    hide WellFormed, AdjustLog, Replay, TidyAll, Reads, ReadsWith, Atomic, CopiesEqual, FsCount, Untouched, Agree,
      FreeSet, NewChain, Find, DirSlots,
         Stepped, Fat, SameHead, AgreeAll, Items, Moved;
    var d1 := Replay(d0, w1);
    var d2 := Replay(d1, w2);
    var d3 := Replay(d2, w3);
    var gone := ItemsIn(v, d1, t, dir)[i].entry.cluster;
    var old_, u := ChainAt(t, gone), Stepped(t, gone, First(chain), chain, false);
    SameHeadFat(v, d1, d2);
    OldChain(v, d1, d2, t, dir, i);
    GoneUntouched(v, d1, t, gone, chain);
    Outside(v, d1, d2, u, w3, Elements(old_), target, node);
    FreedSet(v, d2, d3, old_);
    Adjusted(v, d1, d3, u, -|chain|, target, node);
    var w4 := AdjustLog(v, d3, -|chain|);
    ReplayConcat(d1, w2, w3);
    AtomicConcat(v, d1, d1, w2, w3, target, node);
    AtomicConcat(v, d1, d1, w2 + w3, w4, target, node);
    Rebase(v, d0, d1, w2 + w3 + w4, target, node);
    ReadsAll(v, d0, d1, Replay(d3, w4), target, node);
    OldNotFree(v, d0, d1, chain, old_);
    CountReplaced(v, d0, Replay(d3, w4), chain, old_);
  }

  /** What was in use, and is not the new chain, was not free to begin with. */
  lemma OldNotFree(v: Volume, d0: Image, d1: Image, chain: seq<nat>, old_: seq<nat>)
    requires v.Holds(d0) && v.Holds(d1) && FreeSet(v, d1) == FreeSet(v, d0) - Elements(chain)
    requires v.AllIn(old_) && forall k | 0 <= k < |old_| :: old_[k] !in chain && Fat(v, d1, old_[k]) != 0
    ensures forall k | 0 <= k < |old_| :: old_[k] !in FreeSet(v, d0)
  {
    hide Fat;
    forall k | 0 <= k < |old_|
      ensures old_[k] !in FreeSet(v, d0)
    {
      assert old_[k] !in FreeSet(v, d1) && old_[k] !in Elements(chain);
    }
  }

  lemma AtomicFront(v: Volume, base: Image, d: Image, a: seq<Event>, b: seq<Event>, target: Path, node: Node)
    requires v.Holds(base) && Atomic(v, base, d, a + b, target, node)
    ensures Atomic(v, base, d, a, target, node)
  {
    hide AtomicAt, Replay;
    forall k | 0 <= k <= |a|
      ensures AtomicAt(v, base, Replay(d, a[..k]), target, node)
    {
      AtomicSome(v, base, d, a + b, target, node, k);
      PrefixSplit(d, a, b, k);
    }
  }

  lemma AtomicBack(v: Volume, base: Image, d: Image, a: seq<Event>, b: seq<Event>, target: Path, node: Node)
    requires v.Holds(base) && Atomic(v, base, d, a + b, target, node)
    ensures Atomic(v, base, Replay(d, a), b, target, node)
  {
    hide AtomicAt, Replay;
    forall k | 0 <= k <= |b|
      ensures AtomicAt(v, base, Replay(Replay(d, a), b[..k]), target, node)
    {
      AtomicSome(v, base, d, a + b, target, node, |a| + k);
      PrefixPast(d, a, b, k);
    }
  }

  lemma AtomicSome(v: Volume, base: Image, d: Image, w: seq<Event>, target: Path, node: Node, k: nat)
    requires v.Holds(base) && Atomic(v, base, d, w, target, node) && k <= |w|
    ensures AtomicAt(v, base, Replay(d, w[..k]), target, node)
  {
    hide AtomicAt, Replay;
  }

  lemma ReadsBack(v: Volume, d: Image, e: Image)
    requires v.Holds(d) && v.Holds(e) && Whole(v, d) && Reads(v, d, e)
    ensures Reads(v, e, d)
  {
    hide Contents, Whole;
  }

  /** After writes no path can see, atomic means the same from either image. */
  lemma AtomicAfter(v: Volume, d: Image, w1: seq<Event>, w2: seq<Event>, target: Path, node: Node)
    requires v.Holds(d) && Whole(v, d) && v.Holds(Replay(d, w1)) && Reads(v, d, Replay(d, w1))
    requires Atomic(v, d, d, w1, target, node)
    ensures Atomic(v, d, d, w1 + w2, target, node) <==> Atomic(v, Replay(d, w1), Replay(d, w1), w2, target, node)
  {
    hide Atomic, Replay, Reads, Whole;
    var e := Replay(d, w1);
    if Atomic(v, e, e, w2, target, node) {
      Rebase(v, d, e, w2, target, node);
      AtomicConcat(v, d, d, w1, w2, target, node);
    }
    if Atomic(v, d, d, w1 + w2, target, node) {
      AtomicBack(v, d, d, w1, w2, target, node);
      ReadsBack(v, d, e);
      Shifted(v, e, d, e, w2, target, node);
    }
  }

  /** Images that read alike serve alike as the one to compare with. */
  lemma Shifted(v: Volume, base: Image, d: Image, from: Image, w: seq<Event>, target: Path, node: Node)
    requires v.Holds(base) && v.Holds(d) && Reads(v, base, d) && Atomic(v, d, from, w, target, node)
    ensures Atomic(v, base, from, w, target, node)
  {
    hide Reads, ReadsWith, Replay;
    forall k | 0 <= k <= |w|
      ensures AtomicAt(v, base, Replay(from, w[..k]), target, node)
    {
      assert AtomicAt(v, d, Replay(from, w[..k]), target, node);
      ReadsAll(v, base, d, Replay(from, w[..k]), target, node);
    }
  }

  // ---- A new entry, and the count ---------------------------------------------------------------

  /** The chain is stored, its entry still to come. */
  ghost predicate Staged(v: Volume, d: Image, t: Tree, dir: nat, parent: Path, name: Name, directory: Directory,
      chain: seq<nat>, w1: seq<Event>, node: Node)
  {
    && Sound(v, d, t) && v.fats > 0 && Ready(v, d, t, chain, w1, parent + [name], node)
    && Distinct(chain) && Elements(chain) <= FreeSet(v, d)
    && dir in t.dirs && dir in t.chains && LeadsTo(v, d, parent, dir)
    && directory.chain == t.chains[dir] && directory.items == ItemsIn(v, d, t, dir)
        && directory.slots == DirSlots(v, d, directory.chain)
  }

  lemma StagedEnterable(v: Volume, d: Image, t: Tree, dir: nat, parent: Path, name: Name, directory: Directory,
      chain: seq<nat>, w1: seq<Event>, node: Node, entry: Entry)
    requires Staged(v, d, t, dir, parent, name, directory, chain, w1, node) && Lookup(v, directory.items, name) == None
    requires var e := Replay(d, w1);
             && entry.cluster == First(chain) && NewEntry(v, e, entry, chain) && NodeAt(v, e, Some(entry)) == Some(node)
             && (entry.directory ==> Tidy(DirSlots(v, e, chain)))
    ensures v.Holds(d) && Whole(v, d)
    ensures var e := Replay(d, w1);
            && v.Holds(e) && Reads(v, d, e) && Atomic(v, d, d, w1, parent + [name], node)
            && Enterable(v, e, t, dir, parent, name, entry, chain, node)
            && directory.slots == DirSlots(v, e, directory.chain)
            && (FreeSet(v, e) != {} <==> |FreeSet(v, d)| > |chain|)
            && FreeSet(v, e) == FreeSet(v, d) - Elements(chain)
  {
    hide WellFormed, Replay, Contents, NewChain, NewEntry, NodeAt, DirSlots, Tidy, TidyAll, CopiesEqual, CountTrue,
      FreeSet, FsCount, Reads, Atomic, Lookup, Find,
         Items;
    WholeBy(v, d, t);
    DistinctCount(chain);
    SetLeft(FreeSet(v, d), Elements(chain));
  }

  lemma SetLeft(all: set<nat>, part: set<nat>)
    requires part <= all
    ensures all - part != {} <==> |all| > |part|
  {
    assert |all - part| == |all| - |part| by {
      assert all == (all - part) + part;
    }
  }

  lemma Created(v: Volume, d: Image, t: Tree, dir: nat, parent: Path, name: Name, directory: Directory, chain: seq<nat>,
      w1: seq<Event>, node: Node, w2: seq<Event>, grown: Option<nat>, u: Tree)
    requires Staged(v, d, t, dir, parent, name, directory, chain, w1, node)
    requires var d1 := Replay(d, w1); v.Holds(d1) && Entered(v, d1, Replay(d1, w2), parent + [name], node, grown, u)
    ensures var d1 := Replay(d, w1);
            var d2 := Replay(d1, w2);
            && v.Holds(d2)
            && var w3 := AdjustLog(v, d2, -|chain|);
               && (Atomic(v, d1, d1, w2 + w3, parent + [name], node) <==> Atomic(v, d1, d1, w2, parent + [name], node))
               && Completed(v, d, Replay(d2, w3), parent + [name], node, u)
  {
    hide WellFormed, AdjustLog, Replay, TidyAll, Reads, ReadsWith, Atomic, CopiesEqual, FsCount, FreeSet, NewChain,
      Find, DirSlots, Fat, Items, Moved, Contents;
    var d1, target := Replay(d, w1), parent + [name];
    var d2 := Replay(d1, w2);
    Adjusted(v, d1, d2, u, -|chain|, target, node);
    var w3 := AdjustLog(v, d2, -|chain|);
    if Atomic(v, d1, d1, w2, target, node) {
      AtomicConcat(v, d1, d1, w2, w3, target, node);
    }
    if Atomic(v, d1, d1, w2 + w3, target, node) {
      AtomicFront(v, d1, d1, w2, w3, target, node);
    }
    ReadsAll(v, d, d1, Replay(d2, w3), target, node);
    CountCreated(v, d, Replay(d2, w3), chain, grown);
  }

  /** The alias search gives `ShortFor`. */
  method PickShort(name: Name, taken: set<seq<byte>>) returns (r: Option<Short>)
    ensures r == ShortFor(name, taken)
  {
    hide Fits, Field, FreeAlias;
    var (base, extension) := Split(name);
    if Plain(name) {
      var bytes := Field(base, 8) + Field(extension, 3);
      if bytes in taken {
        return None;
      }
      return Some(Short(bytes, (if HasLower(base) then 8 else 0) + (if HasLower(extension) then 16 else 0), false));
    }
    var alias := PickAlias(name, taken);
    r := if alias.None? then None else Some(Short(alias.value, 0, true));
  }

  /** A new entry for the chain already stored, then the count: `add_entry`
      and what follows it in `write_file` and `make_dir`. */
  method AddAndCount(v: Volume, disk: Disk, directory: Directory, name: Name, attr: byte, first: nat, needed: nat,
      size: nat, stamp: Stamp, ghost d: Image, ghost t: Tree, ghost dir: nat, ghost parent: Path, ghost chain: seq<nat>,
      ghost w1: seq<Event>, ghost node: Node)
    returns (ok: bool, ghost w: seq<Event>, ghost u: Tree)
    requires Staged(v, d, t, dir, parent, name, directory, chain, w1, node) && disk.sectors == Replay(d, w1)
    requires FirstOfFree(v, d, chain)
    requires Lookup(v, directory.items, name) == None && Permitted(name) && ReadBack(name) == name && NewAttr(attr)
    requires first == First(chain) < 0x1_0000_0000 && needed == |chain| && size < 0x1_0000_0000
    requires var entry := Entry(first, size, attr == ATTR_DIRECTORY);
             && v.Holds(disk.sectors) && NewEntry(v, disk.sectors, entry, chain)
                 && NodeAt(v, disk.sectors, Some(entry)) == Some(node)
             && (entry.directory ==> Tidy(DirSlots(v, disk.sectors, chain)))
    modifies disk
    ensures Went(old(disk.sectors), old(disk.log), disk.sectors, disk.log, w)
    ensures v.Holds(d) && (ok <==> Enters(v, d, directory.chain, name, needed))
    ensures Atomic(v, d, d, w1 + w, parent + [name], node) <==>
              SafeGrowth(directory.chain, GrowthFor(v, d, directory.chain, name, needed))
    ensures ok ==> Completed(v, d, disk.sectors, parent + [name], node, u)
    ensures !ok ==> Reads(v, d, disk.sectors)
  {
    hide *;
    ghost var d1, log1 := disk.sectors, disk.log;
    ghost var target := parent + [name];
    var entry := Entry(first, size, attr == ATTR_DIRECTORY);
    StagedEnterable(v, d, t, dir, parent, name, directory, chain, w1, node, entry);
    StagedIs(v, d, t, dir, parent, name, directory, chain, w1, node);
    WentNone(d1, log1);
    w, u := [], t;
    var taken := TakenIn(directory.items);
    var short := PickShort(name, taken);
    FreeRest(v, d, d1, chain);
    EntersIs(v, d, d1, directory, name, needed);
    if short.None? {
      NothingWritten(v, d, w1, target, node);
      SafeGrowthIs(directory.chain, None);
      return false, w, u;
    }
    var add := Addition(name, short.value, taken, attr, first, size, stamp);
    AddOk(add);
    ghost var grown := Growth(v, d1, directory.slots, 1 + if short.value.long then Pieces(|name|) else 0);
    ok, w, u := AddEntry(v, disk, directory, name, short.value, attr, first, size, stamp, t, dir, parent, chain, node);
    AtomicAfter(v, d, w1, w, target, node);
    if !ok {
      ReadsAll(v, d, d1, disk.sectors, target, node);
      return;
    }
    ghost var d2, log2, w2 := disk.sectors, disk.log, w;
    WentTo(d1, log1, d2, log2, w2);
    Created(v, d, t, dir, parent, name, directory, chain, w1, node, w2, grown, u);
    AdjustFree(v, disk, -(needed as int));
    WentOn(d1, log1, d2, log2, w2, disk.sectors, disk.log, AdjustLog(v, d2, -(needed as int)));
    WentTo(d2, log2, disk.sectors, disk.log, AdjustLog(v, d2, -(needed as int)));
    w := w2 + AdjustLog(v, d2, -(needed as int));
    AtomicAfter(v, d, w1, w, target, node);
  }

  lemma StagedIs(v: Volume, d: Image, t: Tree, dir: nat, parent: Path, name: Name, directory: Directory,
      chain: seq<nat>, w1: seq<Event>, node: Node)
    requires Staged(v, d, t, dir, parent, name, directory, chain, w1, node)
    ensures v.fats > 0 && v.Holds(d) && directory.chain == t.chains[dir]
    ensures directory.slots == DirSlots(v, d, directory.chain)
    ensures directory.items == Items(directory.slots)
  {
    hide WellFormed, Ready, DirSlots, TidyAll, CopiesEqual, CountTrue, FreeSet;
  }

  /** The chain is the first of the free clusters. */
  ghost predicate FirstOfFree(v: Volume, d: Image, chain: seq<nat>)
    requires v.Holds(d)
  {
    chain <= FreeFrom(v, d, 2)
  }

  /** Once they are taken, the others are left, in the same order. */
  lemma FreeRest(v: Volume, d: Image, e: Image, chain: seq<nat>)
    requires v.Holds(d) && v.Holds(e) && FirstOfFree(v, d, chain) && FreeSet(v, e) == FreeSet(v, d) - Elements(chain)
    ensures |chain| <= |FreeFrom(v, d, 2)| && FreeFrom(v, e, 2) == FreeFrom(v, d, 2)[|chain|..]
  {
    hide Fat, FreeFrom;
    var n := |chain|;
    assert chain == FreeFrom(v, d, 2)[..n];
    forall c: nat | v.InRange(c)
      ensures FreeUnless(v, d, e, c, FreeFrom(v, d, 2)[..n])
    {
      assert c in FreeSet(v, e) <==> c in FreeSet(v, d) && c !in chain;
    }
    FreeFromLess(v, d, e, 2, n);
  }

  lemma FreeStep(v: Volume, d: Image, c: nat)
    requires v.Holds(d) && 2 <= c
    ensures FreeFrom(v, d, c) == if c >= v.clusters + 2 then []
                                 else if Fat(v, d, c) == 0 then [c] + FreeFrom(v, d, c + 1) else FreeFrom(v, d, c + 1)
  {
  }

  /** `c` is free in `e` if it was in `d`, and is not one of the first `n`. */
  ghost predicate FreeUnless(v: Volume, d: Image, e: Image, k: nat, taken: seq<nat>)
    requires v.Holds(d) && v.Holds(e) && v.InRange(k)
  {
    Fat(v, e, k) == 0 <==> Fat(v, d, k) == 0 && k !in taken
  }

  lemma {:induction false} FreeFromLess(v: Volume, d: Image, e: Image, c: nat, n: nat)
    requires v.Holds(d) && v.Holds(e) && 2 <= c <= v.clusters + 2 && n <= |FreeFrom(v, d, c)|
    requires forall k: nat | c <= k && v.InRange(k) :: FreeUnless(v, d, e, k, FreeFrom(v, d, c)[..n])
    ensures FreeFrom(v, e, c) == FreeFrom(v, d, c)[n..]
    decreases v.clusters + 2 - c
  {
    hide Fat, FreeFrom;
    FreeStep(v, d, c);
    FreeStep(v, e, c);
    if c < v.clusters + 2 {
      var rest := FreeFrom(v, d, c + 1);
      assert v.InRange(c) && FreeUnless(v, d, e, c, FreeFrom(v, d, c)[..n]);
      var m := if Fat(v, d, c) == 0 && n > 0 then n - 1 else n;
      assert n > 0 ==> ([c] + rest)[..n] == [c] + rest[..n - 1] && ([c] + rest)[n..] == rest[n - 1..];
      forall k: nat | c + 1 <= k && v.InRange(k)
        ensures FreeUnless(v, d, e, k, rest[..m])
      {
        assert FreeUnless(v, d, e, k, FreeFrom(v, d, c)[..n]);
      }
      FreeFromLess(v, d, e, c + 1, m);
    }
  }

  lemma EntersIs(v: Volume, d: Image, d1: Image, directory: Directory, name: Name, needed: nat)
    requires v.Holds(d) && v.Holds(d1) && directory.slots == DirSlots(v, d, directory.chain)
    requires directory.items == Items(directory.slots)
    requires FreeSet(v, d1) != {} <==> |FreeSet(v, d)| > needed
    requires needed <= |FreeFrom(v, d, 2)| && FreeFrom(v, d1, 2) == FreeFrom(v, d, 2)[needed..]
    ensures var short := ShortFor(name, TakenIn(directory.items));
            GrowthFor(v, d, directory.chain, name, needed)
            == if short.None? then None else Growth(v, d1, directory.slots,
                1 + if short.value.long then Pieces(|name|) else 0)
    ensures var short := ShortFor(name, TakenIn(directory.items));
            Enters(v, d, directory.chain, name, needed) <==>
            short.Some? && HasRoom(v, d1, directory.slots, 1 + if short.value.long then Pieces(|name|) else 0)
  {
    hide ShortFor, DirSlots, Items, FreeSet, HasRun, EndRoom, FreeFrom;
  }

  lemma AddOk(add: Addition)
    requires Permitted(add.name) && NewAttr(add.attr) && ShortFor(add.name, add.taken) == Some(add.short)
    requires ReadBack(add.name) == add.name
    requires add.cluster < 0x1_0000_0000 && add.size < 0x1_0000_0000
    ensures add.Ok() && add.Entry() == Entry(add.cluster, add.size, add.attr == ATTR_DIRECTORY)
  {
    hide ShortFor, ReadBack, Permitted;
  }

  lemma NothingWritten(v: Volume, d: Image, w: seq<Event>, target: Path, node: Node)
    requires v.Holds(d) && Atomic(v, d, d, w, target, node)
    ensures Atomic(v, d, d, w + [], target, node)
  {
    hide Atomic;
    assert w + [] == w;
  }

  /** The entry led to its new chain, the old clusters freed, then the count:
      the other arm of `write_file`. */
  method Replace(v: Volume, disk: Disk, directory: Directory, at: nat, first: nat, needed: nat, size: nat, stamp: Stamp,
      ghost d: Image, ghost t: Tree, ghost dir: nat, ghost parent: Path, ghost name: Name, ghost chain: seq<nat>,
      ghost w1: seq<Event>, ghost node: Node)
    returns (ok: bool, ghost w: seq<Event>, ghost u: Tree)
    requires Staged(v, d, t, dir, parent, name, directory, chain, w1, node) && disk.sectors == Replay(d, w1)
    requires Lookup(v, directory.items, name) == Some(at) && !directory.items[at].entry.directory
    requires first == First(chain) < 0x1_0000_0000 && needed == |chain| && size < 0x1_0000_0000
    requires var entry := Entry(first, size, false);
             v.Holds(disk.sectors) && NewEntry(v, disk.sectors, entry, chain)
                 && NodeAt(v, disk.sectors, Some(entry)) == Some(node)
    modifies disk
    ensures Went(old(disk.sectors), old(disk.log), disk.sectors, disk.log, w)
    ensures ok && v.Holds(d) && Atomic(v, d, d, w1 + w, parent + [name], node)
    ensures Completed(v, d, disk.sectors, parent + [name], node, u)
  {
    hide *;
    ghost var d1, log1, target := disk.sectors, disk.log, parent + [name];
    StagedRepoint(v, d, t, dir, parent, name, directory, chain, w1, node, at);
    Repointed(v, d1, t, dir, parent, name, at, chain, size, stamp, node);
    var old_ := directory.items[at].entry.cluster;
    var slot := directory.items[at].slot;
    ok := PatchSlot(v, disk, directory.chain, slot, raw => Repoint(raw, first, size, stamp));
    ghost var d2, log2 := disk.sectors, disk.log;
    ghost var w2 := [SlotPut(v, d1, directory.chain, slot, Repoint(DirSlots(v, d1, directory.chain)[slot], first,
        size, stamp))];
    WentTo(d1, log1, d2, log2, w2);
    RepointHead(v, d1, t, dir, target, at, chain, node, w2);
    OldChain(v, d1, d2, t, dir, at);
    ghost var w3;
    ok, w3 := FreeChain(v, disk, old_);
    ghost var d3, log3 := disk.sectors, disk.log;
    WentTo(d2, log2, d3, log3, w3);
    WentOn(d1, log1, d2, log2, w2, d3, log3, w3);
    Replaced(v, d, t, dir, target, at, chain, w1, w2, w3, node);
    AdjustFree(v, disk, -(needed as int));
    ghost var w4 := AdjustLog(v, d3, -(needed as int));
    WentOn(d1, log1, d3, log3, w2 + w3, disk.sectors, disk.log, w4);
    WentTo(d3, log3, disk.sectors, disk.log, w4);
    w, u := w2 + w3 + w4, Stepped(t, old_, first, chain, false);
    AtomicConcat(v, d, d, w1, w, target, node);
  }

  lemma StagedRepoint(v: Volume, d: Image, t: Tree, dir: nat, parent: Path, name: Name, directory: Directory,
      chain: seq<nat>, w1: seq<Event>, node: Node, at: nat)
    requires Staged(v, d, t, dir, parent, name, directory, chain, w1, node)
    requires Lookup(v, directory.items, name) == Some(at) && !directory.items[at].entry.directory
    ensures Sound(v, d, t) && v.Holds(d) && v.fats > 0 && Ready(v, d, t, chain, w1, parent + [name], node)
    ensures Distinct(chain) && Elements(chain) <= FreeSet(v, d)
    ensures Atomic(v, d, d, w1, parent + [name], node)
    ensures var e := Replay(d, w1);
            && v.Holds(e) && WellFormed(v, e, t) && TidyAll(v, e, t) && dir in t.dirs && dir in t.chains
                && LeadsTo(v, e, parent, dir)
            && NewChain(v, e, t, First(chain), chain)
            && directory.chain == t.chains[dir] && directory.items == ItemsIn(v, e, t, dir)
            && Lookup(v, ItemsIn(v, e, t, dir), name) == Some(at) && !ItemsIn(v, e, t, dir)[at].entry.directory
  {
    hide WellFormed, Replay, Contents, NewChain, DirSlots, TidyAll, CopiesEqual, CountTrue, FreeSet, FsCount, Reads,
      Atomic, Lookup, Find, Items;
  }

  lemma RepointHead(v: Volume, d: Image, t: Tree, dir: nat, target: Path, i: nat, chain: seq<nat>, node: Node,
      w: seq<Event>)
    requires v.Holds(d) && dir in t.chains && i < |ItemsIn(v, d, t, dir)|
    requires RepointDone(v, d, t, dir, target, i, chain, node, w)
    ensures v.Holds(Replay(d, w)) && SameHead(v, d, Replay(d, w))
  {
    hide Replay, Atomic, ReadsWith, WellFormed, TidyAll, SameHead, Stepped, DirItems;
  }

  // ---- write_file -------------------------------------------------------------------------------

  lemma StagedBy(v: Volume, d: Image, t: Tree, text: seq<nat>, directory: Directory, chain: seq<nat>, data: seq<byte>,
      w1: seq<Event>, node: Node)
    requires Sound(v, d, t) && Place(v, d, text).Some?
    requires IsDirectory(v, d, Place(v, d, text).value.0.cluster, directory)
    requires Prepared(v, d, chain, data, w1)
    ensures var (parent, name) := Place(v, d, text).value;
            Staged(v, d, t, parent.cluster, Parts(Halves(text).0), name, directory, chain, w1, node)
    ensures v.Holds(Replay(d, w1)) && NewChain(v, Replay(d, w1), t, First(chain), chain) && First(chain) < 0x1_0000_0000
  {
    hide WellFormed, Replay, NewChain, DirSlots, TidyAll, CopiesEqual, CountTrue, FsCount, Atomic, Lookup, Find, Items,
      Links, AgreeAll,
         Bytes, GatherChain, ValidName, Halves, Parts, Fat, Reads;
    var (parent, name) := Place(v, d, text).value;
    PlaceIs(v, d, t, text, directory);
    PreparedReady(v, d, t, chain, data, w1, Parts(Halves(text).0) + [name], node);
    FreeBefore(v, d, chain);
  }

  lemma FreeBefore(v: Volume, d: Image, chain: seq<nat>)
    requires v.Holds(d) && v.AllIn(chain) && forall i | 0 <= i < |chain| :: Fat(v, d, chain[i]) == 0
    ensures Elements(chain) <= FreeSet(v, d) && First(chain) < 0x1_0000_0000
  {
    hide Fat;
    forall c | c in Elements(chain)
      ensures c in FreeSet(v, d)
    {
      var i :| 0 <= i < |chain| && chain[i] == c;
      assert v.InRange(chain[i]);
    }
  }

  /** Succeeds exactly when `Writable` holds. Stopped anywhere, the path reads
      wholly old or wholly new and every other path as before, if and only if the
      directory is not to grow in the unsafe order; completed, the file
      reads as `data` and the volume is as sound as it was. When it fails every
      path reads as before; clusters are lost only if the data was stored and its
      entry then found no alias or no room. */
  method WriteFile(v: Volume, disk: Disk, text: seq<nat>, data: seq<byte>, stamp: Stamp, ghost t: Tree)
    returns (ok: bool, ghost w: seq<Event>, ghost u: Tree)
    requires Sound(v, disk.sectors, t) && IsText(text) && NameKept(v, disk.sectors, text)
    modifies disk
    ensures Went(old(disk.sectors), old(disk.log), disk.sectors, disk.log, w)
    ensures ok <==> Writable(v, old(disk.sectors), text, |data|)
    ensures w != [] ==> Stores(v, old(disk.sectors), text, |data|)
    ensures Atomic(v, old(disk.sectors), old(disk.sectors), w, Parts(text), File(data)) 
            <==> |data| > WRITE_LIMIT || InOrder(v, old(disk.sectors), text, Needed(v, |data|))
    ensures ok ==> Completed(v, old(disk.sectors), disk.sectors, Parts(text), File(data), u)
    ensures !ok ==> Reads(v, old(disk.sectors), disk.sectors)
  {
    hide *;
    ghost var d, log, target, node := disk.sectors, disk.log, Parts(text), File(data);
    Constants();
    SoundHolds(v, d, t);
    ReadsSame(v, d, t, target, node);
    WentNone(d, log);
    ok, w, u := false, [], t;
    WritableIs(v, d, text, |data|);
    if |data| > WRITE_LIMIT {
      return;
    }
    var place := ParentAndName(v, disk, text);
    if place.None? {
      InOrderReplaced(v, d, text, Needed(v, |data|));
      return;
    }
    var (parent, name) := place.value;
    var directory := ReadDirectory(v, disk, parent.cluster);
    PlaceListed(v, d, t, text);
    assert directory.Some?;
    PlaceIs(v, d, t, text, directory.value);
    var at := FirstNamed(v, directory.value.items, name);
    if at.Some? {
      InOrderReplaced(v, d, text, Needed(v, |data|));
      if directory.value.items[at.value].entry.directory {
        return;
      }
    } else {
      InOrderNew(v, d, text, Needed(v, |data|));
    }
    var needed := Needed(v, |data|);
    NeededHolds(v, |data|);
    FreeCount(v, d);
    ghost var w1;
    var chain;
    chain, w1 := Prepare(v, disk, needed, data);
    WentTo(d, log, disk.sectors, disk.log, w1);
    if chain.None? {
      InOrderFull(v, d, text, needed);
      return;
    }
    FirstIsFree(v, d, chain.value);
    ghost var d1, log1, before := disk.sectors, disk.log, Parts(Halves(text).0);
    StagedBy(v, d, t, text, directory.value, chain.value, data, w1, node);
    PreparedFile(v, d, t, chain.value, data, w1);
    var first := First(chain.value);
    ghost var rest;
    if at.Some? {
      ok, rest, u := Replace(v, disk, directory.value, at.value, first, needed, |data|, stamp, d, t, parent.cluster,
          before, name, chain.value, w1, node);
    } else {
      StorableIs(text);
      NameKeptIs(v, d, text, directory.value);
      ok, rest, u := AddAndCount(v, disk, directory.value, name, ATTR_ARCHIVE, first, needed, |data|, stamp,
                                  d, t, parent.cluster, before, chain.value, w1, node);
    }
    WentOn(d, log, d1, log1, w1, disk.sectors, disk.log, rest);
    w := w1 + rest;
  }

  lemma Constants()
    ensures NewAttr(0x20) && NewAttr(0x10) && ATTR_ARCHIVE == 0x20 && ATTR_DIRECTORY == 0x10
    ensures WRITE_LIMIT < 0x1_0000_0000
  {
  }

  lemma SoundHolds(v: Volume, d: Image, t: Tree)
    requires Sound(v, d, t)
    ensures v.Holds(d) && WellFormed(v, d, t)
  {
    hide WellFormed, TidyAll, CopiesEqual, CountTrue;
  }

  lemma FirstIsFree(v: Volume, d: Image, chain: seq<nat>)
    requires v.Holds(d) && |chain| <= |FreeFrom(v, d, 2)| && chain == FreeFrom(v, d, 2)[..|chain|]
    ensures FirstOfFree(v, d, chain)
  {
    hide FreeFrom;
  }

  lemma NameKeptIs(v: Volume, d: Image, text: seq<nat>, directory: Directory)
    requires v.Holds(d) && Place(v, d, text).Some? && NameKept(v, d, text)
    requires directory.chain == HomeChain(v, d, Parts(text)) && directory.items == DirItems(v, d, directory.chain)
    requires LookupEntry(v, directory.items, Place(v, d, text).value.1).None?
    ensures Storable(Place(v, d, text).value.1)
  {
    hide Place, HomeChain, DirItems, Lookup, Storable;
  }

  lemma WritableIs(v: Volume, d: Image, text: seq<nat>, n: nat)
    requires v.Holds(d)
    ensures v.spc > 0
    ensures Writable(v, d, text, n) ==> n <= WRITE_LIMIT && Place(v, d, text).Some?
    ensures n <= WRITE_LIMIT && Place(v, d, text).Some? ==>
              var home := HomeChain(v, d, Parts(text));
              var at := LookupEntry(v, DirItems(v, d, home), Place(v, d, text).value.1);
              var fits := if at.Some? then !at.value.directory else Enters(v, d, home, Place(v, d, text).value.1,
                  Needed(v, n));
              && (Writable(v, d, text, n) <==> Needed(v, n) <= |FreeSet(v, d)| && fits)
              && (Stores(v, d, text, n) <==> Needed(v, n) <= |FreeSet(v, d)| && (at.Some? ==> !at.value.directory))
  {
    hide Place, HomeChain, DirItems, LookupEntry, Enters, FreeSet, Needed;
  }

  lemma PlaceListed(v: Volume, d: Image, t: Tree, text: seq<nat>)
    requires Sound(v, d, t) && Place(v, d, text).Some?
    ensures v.Holds(d) && ChainOf(v, d, Place(v, d, text).value.0.cluster).Some?
    ensures ValidName(Halves(text).1)
  {
    hide WellFormed, TidyAll, CopiesEqual, CountTrue, Find, ValidName, Halves;
    FindOk(v, d, t, Parts(Halves(text).0));
    TreeDirs(v, d, t);
    ListDirIs(v, d, t, Place(v, d, text).value.0.cluster);
  }
}
