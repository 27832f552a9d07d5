/** The slots of one more entry on the disk: when they find a place, and when every
    stop on the way leaves a well-formed volume. */
module FatEnter {
  import opened Base
  import opened Blocks
  import opened FatLayout
  import opened FatChain
  import opened FatData
  import opened FatNames
  import opened FatDirectory
  import opened FatRoundTrip
  import opened FatTree
  import opened FatFrame
  import opened FatTables
  import opened FatFree
  import opened FatSlots
  import opened FatSwitch
  import opened FatGrow
  import opened FatAtomic
  import opened FatExtend
  import opened FatAdd
  import opened FatTorn

  // ---- From one image to the next ---------------------------------------------------------------

  lemma ReadsAll(v: Volume, base: Image, d: Image, e: Image, target: Path, node: Node)
    requires v.Holds(base) && v.Holds(d) && Reads(v, base, d)
    ensures Reads(v, d, e) ==> Reads(v, base, e)
    ensures ReadsWith(v, d, e, target, node) ==> ReadsWith(v, base, e, target, node)
  {
    hide Contents, Whole, SamePath, Volume.Ok;
  }

  /** Writes that are atomic over an image that reads as `base` are atomic over
      `base`. */
  lemma Rebase(v: Volume, base: Image, d: Image, w: seq<Event>, target: Path, node: Node)
    requires v.Holds(base) && v.Holds(d) && Reads(v, base, d) && Atomic(v, d, d, w, target, node)
    ensures Atomic(v, base, d, w, target, node)
  {
    hide Reads, ReadsWith, Replay;
    forall k | 0 <= k <= |w|
      ensures AtomicAt(v, base, Replay(d, w[..k]), target, node)
    {
      assert AtomicAt(v, d, Replay(d, w[..k]), target, node);
      ReadsAll(v, base, d, Replay(d, w[..k]), target, node);
    }
  }

  // ---- Directories in order ---------------------------------------------------------------------

  /** Every directory in use keeps its slots in order. */
  ghost predicate TidyAll(v: Volume, d: Image, t: Tree)
    requires v.Holds(d)
  {
    forall g | g in t.dirs && g in t.chains :: Tidy(DirSlots(v, d, t.chains[g]))
  }

  lemma SameSlots(v: Volume, d: Image, e: Image, chain: seq<nat>, touched: set<nat>)
    requires v.Holds(d) && Agree(v, d, e, touched) && v.AllIn(chain) && forall c | c in chain :: c !in touched
    ensures v.Holds(e) && DirSlots(v, e, chain) == DirSlots(v, d, chain)
  {
    hide Agree, SlotsOf, ChainLbas;
    SameData(v, d, e, chain, touched);
  }

  lemma TidyOutside(v: Volume, d: Image, e: Image, t: Tree, touched: set<nat>)
    requires WellFormed(v, d, t) && v.Holds(d) && Agree(v, d, e, touched) && Untouched(t, touched) && TidyAll(v, d, t)
    ensures v.Holds(e) && TidyAll(v, e, t)
  {
    hide WellFormed, Agree, DirSlots, Tidy;
    AgreeHolds(v, d, e, touched);
    forall g | g in t.dirs && g in t.chains
      ensures DirSlots(v, e, t.chains[g]) == DirSlots(v, d, t.chains[g])
    {
      ListDirIs(v, d, t, g);
      SameSlots(v, d, e, t.chains[g], touched);
    }
  }

  /** One directory rewritten in order, and at most one new one in order. */
  lemma TidyStepped(v: Volume, d: Image, e: Image, t: Tree, dir: nat, gone: nat, first: nat, chain: seq<nat>,
      folder: bool)
    requires WellFormed(v, d, t) && v.Holds(d) && TidyAll(v, d, t) && dir in t.dirs && dir in t.chains
    requires Agree(v, d, e, Elements(t.chains[dir])) && v.Holds(e) && Tidy(DirSlots(v, e, t.chains[dir]))
    requires NewChain(v, d, t, first, chain) && (folder ==> first != 0 && Tidy(DirSlots(v, d, chain)))
    ensures TidyAll(v, e, Stepped(t, gone, first, chain, folder))
  {
    hide EntriesOk, RefsUnique, Agree, DirSlots, Tidy, Linked;
    var u := Stepped(t, gone, first, chain, folder);
    forall g | g in u.dirs && g in u.chains
      ensures Tidy(DirSlots(v, e, u.chains[g]))
    {
      if first != 0 && g == first {
        NewIn(v, d, t, first, chain);
        assert NoShare(chain, t.chains[dir]);
        SameSlots(v, d, e, chain, Elements(t.chains[dir]));
      } else if g != dir {
        ListDirIs(v, d, t, g);
        assert NoShare(t.chains[g], t.chains[dir]);
        SameSlots(v, d, e, t.chains[g], Elements(t.chains[dir]));
      }
    }
  }

  /** Where a new folder starts, no old one does. */
  lemma NewIn(v: Volume, d: Image, t: Tree, first: nat, chain: seq<nat>)
    requires WellFormed(v, d, t) && v.Holds(d) && NewChain(v, d, t, first, chain) && first != 0
    ensures first !in t.chains && v.AllIn(chain)
  {
    hide EntriesOk, RefsUnique, Linked;
    NewStart(v, d, t, first, chain);
    if first in t.chains {
      FirstIn(v, d, t, first);
    }
    AllOf(v, d, first, chain);
  }

  lemma AllOf(v: Volume, d: Image, first: nat, chain: seq<nat>)
    requires v.Holds(d) && IsChain(v, d, first, chain)
    ensures v.AllIn(chain)
  {
  }

  // ---- Growing, stopped half-way ----------------------------------------------------------------

  /** The FAT sector of the last cluster is not written before the added one's. */
  ghost predicate Safe(chain: seq<nat>, a: nat) {
    chain != [] && chain[|chain| - 1] / 128 >= a / 128
  }

  ghost predicate Growable(v: Volume, d: Image, t: Tree, dir: nat, a: nat) {
    WellFormed(v, d, t) && v.Holds(d) && dir in t.dirs && dir in t.chains && t.chains[dir] != [] && v.InRange(a)
        && Fat(v, d, a) == 0
  }

  lemma GrowReads(v: Volume, d: Image, t: Tree, dir: nat, a: nat, e: Image)
    requires Growable(v, d, t, dir, a) && GrowStep(v, d, e, t.chains[dir], a)
    ensures v.Holds(e) && Reads(v, d, e)
  {
    hide WellFormed, Agree, Grown, Contents, Find, Fat, GrownTree;
    if Agree(v, d, e, {a}) {
      GrowApart(v, d, t, dir, a);
      SameTree(v, d, e, t, {a});
      WholeBy(v, e, t);
      forall path
        ensures Contents(v, e, path) == Contents(v, d, path)
      {
        SameContents(v, d, e, t, {a}, path);
      }
    } else {
      GrowTree(v, d, e, t, dir, a);
      WholeBy(v, e, GrownTree(t, dir, a));
    }
  }

  lemma GrowAtomic(v: Volume, d: Image, t: Tree, dir: nat, a: nat, w: seq<Event>, target: Path, node: Node)
    requires Growable(v, d, t, dir, a) && GrewBy(v, d, t.chains[dir], a, w) && Safe(t.chains[dir], a)
    ensures Atomic(v, d, d, w, target, node)
  {
    hide GrowStep, WellFormed, Grown, Fat, Replay, Reads, CopiesEqual, FsCount;
    forall k | 0 <= k <= |w|
      ensures AtomicAt(v, d, Replay(d, w[..k]), target, node)
    {
      assert GrowStep(v, d, Replay(d, w[..k]), t.chains[dir], a);
      GrowReads(v, d, t, dir, a, Replay(d, w[..k]));
    }
  }

  /** What is to be entered, and where. */
  ghost predicate Enterable(v: Volume, d: Image, t: Tree, dir: nat, parent: Path, name: Name, entry: Entry,
      chain: seq<nat>, node: Node) {
    && WellFormed(v, d, t) && v.Holds(d) && TidyAll(v, d, t)
    && dir in t.dirs && dir in t.chains && LeadsTo(v, d, parent, dir) && Lookup(v, ItemsIn(v, d, t, dir), name) == None
    && NewChain(v, d, t, entry.cluster, chain) && NewEntry(v, d, entry, chain)
    && (entry.directory ==> Tidy(DirSlots(v, d, chain)))
    && NodeAt(v, d, Some(entry)) == Some(node)
  }

  lemma GrownNew(v: Volume, d: Image, e: Image, t: Tree, dir: nat, a: nat, entry: Entry, chain: seq<nat>)
    requires Growable(v, d, t, dir, a) && Grown(v, d, e, t.chains[dir], a)
    requires NewChain(v, d, t, entry.cluster, chain) && NewEntry(v, d, entry, chain)
    ensures v.Holds(e) && NewChain(v, e, GrownTree(t, dir, a), entry.cluster, chain) && NewEntry(v, e, entry, chain)
    ensures NodeAt(v, e, Some(entry)) == NodeAt(v, d, Some(entry))
    ensures FreeSet(v, e) == FreeSet(v, d) - {a}
  {
    hide EntriesOk, RefsUnique, ChainsOk, DirItems, Fat, Owns, Bytes, ChainOf, Linked;
    var home := t.chains[dir];
    var last := home[|home| - 1];
    GrownHolds(v, d, e, home, a);
    assert Agree(v, d, e, {a, last});
    LastUsed(v, d, t, dir);
    assert FreeSet(v, e) == FreeSet(v, d) - {a};
    if entry.cluster != 0 {
      NotOn(v, d, entry.cluster, chain, a);
      assert NoShare(home, chain) && last in home;
      SameChain(v, d, e, entry.cluster, chain, {a, last});
    }
  }

  lemma LastUsed(v: Volume, d: Image, t: Tree, dir: nat)
    requires WellFormed(v, d, t) && v.Holds(d) && dir in t.chains && t.chains[dir] != []
    ensures var home := t.chains[dir];
            && v.AllIn(home) && Distinct(home) && IsChain(v, d, dir, home)
            && v.InRange(home[|home| - 1]) && Fat(v, d, home[|home| - 1]) != 0
  {
    hide EntriesOk, RefsUnique, Fat;
    assert IsChain(v, d, dir, t.chains[dir]);
    ChainDistinct(v, d, t.chains[dir]);
  }

  /** A free cluster is on no chain. */
  lemma NotOn(v: Volume, d: Image, first: nat, chain: seq<nat>, a: nat)
    requires v.Holds(d) && IsChain(v, d, first, chain) && v.InRange(a) && Fat(v, d, a) == 0
    ensures a !in chain
  {
    hide Fat;
    forall i | 0 <= i < |chain|
      ensures Fat(v, d, chain[i]) != 0
    {
      assert i < |chain| - 1 ==> Fat(v, d, chain[i]) == chain[i + 1] && v.InRange(chain[i + 1]);
    }
  }

  lemma TidyGrown(v: Volume, d: Image, e: Image, t: Tree, dir: nat, a: nat)
    requires Growable(v, d, t, dir, a) && Grown(v, d, e, t.chains[dir], a) && TidyAll(v, d, t)
    ensures v.Holds(e) && TidyAll(v, e, GrownTree(t, dir, a))
  {
    hide EntriesOk, RefsUnique, DirSlots, Tidy, Fat, Owns, Linked;
    var home, u := t.chains[dir], GrownTree(t, dir, a);
    var last := home[|home| - 1];
    GrownHolds(v, d, e, home, a);
    assert Agree(v, d, e, {a, last});
    LastUsed(v, d, t, dir);
    GrowApart(v, d, t, dir, a);
    GrownChain(v, d, e, dir, home, a);
    AppendFresh(DirSlots(v, d, home), 16 * v.spc);
    forall g | g in t.dirs && g in t.chains && g != dir
      ensures DirSlots(v, e, t.chains[g]) == DirSlots(v, d, t.chains[g])
    {
      LastUsed(v, d, t, g);
      assert NoShare(t.chains[g], home) && last in home;
      SameSlots(v, d, e, t.chains[g], {a, last});
    }
  }

  lemma GrownFolder(v: Volume, d: Image, e: Image, t: Tree, dir: nat, a: nat, entry: Entry, chain: seq<nat>)
    requires Growable(v, d, t, dir, a) && Grown(v, d, e, t.chains[dir], a) && entry.directory
    requires NewChain(v, d, t, entry.cluster, chain) && NewEntry(v, d, entry, chain)
    ensures v.Holds(e) && DirSlots(v, e, chain) == DirSlots(v, d, chain)
  {
    hide EntriesOk, RefsUnique, ChainsOk, DirItems, DirSlots, Fat, Owns, Linked;
    var home := t.chains[dir];
    var last := home[|home| - 1];
    GrownHolds(v, d, e, home, a);
    assert Agree(v, d, e, {a, last});
    NotOn(v, d, entry.cluster, chain, a);
    AllOf(v, d, entry.cluster, chain);
    assert NoShare(chain, home) && last in home;
    SameSlots(v, d, e, chain, {a, last});
  }

  /** After growth, everything is ready for the entry again. */
  lemma GrownEnterable(v: Volume, d: Image, e: Image, t: Tree, dir: nat, a: nat, parent: Path, name: Name, entry: Entry,
      chain: seq<nat>, node: Node)
    requires Enterable(v, d, t, dir, parent, name, entry, chain, node)
    requires Growable(v, d, t, dir, a) && Grown(v, d, e, t.chains[dir], a)
    ensures v.Holds(d) && v.Holds(e) && Enterable(v, e, GrownTree(t, dir, a), dir, parent, name, entry, chain, node)
    ensures FreeSet(v, e) == FreeSet(v, d) - {a}
    ensures v.AllIn(t.chains[dir] + [a])
    ensures DirSlots(v, e, t.chains[dir] + [a]) == DirSlots(v, d, t.chains[dir]) + FreshSlots(16 * v.spc)
  {
    hide WellFormed, Fat, Grown, Find, Contents, NewChain, NewEntry, NodeAt, Lookup, DirSlots, Items, Tidy, IsChain,
      TidyAll;
    var home := t.chains[dir];
    TidyGrown(v, d, e, t, dir, a);
    if entry.directory {
      GrownFolder(v, d, e, t, dir, a, entry, chain);
    }
    GrowTree(v, d, e, t, dir, a);
    GrownNew(v, d, e, t, dir, a, entry, chain);
    LastUsed(v, d, t, dir);
    GrowApart(v, d, t, dir, a);
    GrownChain(v, d, e, dir, home, a);
    AppendFresh(DirSlots(v, d, home), 16 * v.spc);
    assert ItemsIn(v, e, GrownTree(t, dir, a), dir) == ItemsIn(v, d, t, dir);
  }

  // ---- The entry entered ------------------------------------------------------------------------

  function TakenIn(items: seq<Item>): set<seq<byte>> {
    set i | 0 <= i < |items| :: items[i].short
  }

  /** `e` is `d` with `node` at `target`: well formed, in order, all accounts
      kept; `grown` is the cluster its directory was given, if it was. */
  ghost predicate Entered(v: Volume, d: Image, e: Image, target: Path, node: Node, grown: Option<nat>, u: Tree)
    requires v.Holds(d)
  {
    && v.Holds(e) && ReadsWith(v, d, e, target, node) && WellFormed(v, e, u) && TidyAll(v, e, u)
    && Kept(v, d, e, grown)
  }

  function Only(c: Option<nat>): set<nat> {
    if c.Some? then {c.value} else {}
  }

  /** FAT copies, free clusters and FSInfo, when only `grown` was taken. */
  ghost predicate Kept(v: Volume, d: Image, e: Image, grown: Option<nat>)
    requires v.Holds(d) && v.Holds(e)
  {
    && FreeSet(v, e) == FreeSet(v, d) - Only(grown)
    && FsCount(v, e) == Moved(FsCount(v, d), -|Only(grown)|, v.clusters)
    && (CopiesEqual(v, d) ==> CopiesEqual(v, e))
    && (grown.Some? ==> grown.value in FreeSet(v, d))
  }

  /** A new entry's slots written where there was room, or as far as there was. */
  lemma PutEntered(v: Volume, d: Image, t: Tree, dir: nat, parent: Path, start: nat, run: nat, add: Addition,
      w: seq<Event>, chain: seq<nat>, node: Node, ok: bool)
    requires add.Ok() && Enterable(v, d, t, dir, parent, add.name, add.Entry(), chain, node)
    requires PutsEntry(v, d, t.chains[dir], start, run, add.Slots(), w, ok)
    ensures v.Holds(d) && Atomic(v, d, d, w, parent + [add.name], node)
    ensures ok ==>
              Entered(v, d, Replay(d, w), parent + [add.name], node, None, Stepped(t, 0, add.cluster, chain,
                  add.Entry().directory))
    ensures !ok ==> Reads(v, d, Replay(d, w))
  {
    hide WellFormed, DirSlots, Tidy, Replay, NewChain, NewEntry, NodeAt, Reads, ReadsWith, Atomic, LeadsTo, Lookup,
      EntrySlots, TidyAll, Agree,
         Fat, CopiesEqual, FreeSet, FsCount, Stepped, DirBecame, Items, SameHead, ReadBack, ShortFor, Permitted;
    TidyOf(v, d, t, dir);
    AddRuns(v, d, t, dir, parent, start, run, add, w, ok, chain, node);
    SameHeadFat(v, d, Replay(d, w));
    if ok {
      SlotsHold(v, d, t.chains[dir], start, add.Slots(), w);
      BecameAgree(v, d, Replay(d, w), t.chains[dir], Replace(DirSlots(v, d, t.chains[dir]), start, add.Slots()));
      NewFolder(v, d, add.Entry(), chain);
      TidyStepped(v, d, Replay(d, w), t, dir, 0, add.cluster, chain, add.Entry().directory);
    }
  }

  lemma TidyOf(v: Volume, d: Image, t: Tree, dir: nat)
    requires v.Holds(d) && TidyAll(v, d, t) && dir in t.dirs && dir in t.chains
    ensures Tidy(DirSlots(v, d, t.chains[dir]))
  {
  }

  lemma BecameAgree(v: Volume, d: Image, e: Image, chain: seq<nat>, slots: seq<Slot>)
    requires v.Holds(d) && DirBecame(v, d, e, chain, slots)
    ensures Agree(v, d, e, Elements(chain)) && SameHead(v, d, e)
  {
  }

  lemma GrewEntered(v: Volume, d: Image, t: Tree, dir: nat, a: nat, parent: Path, start: nat, run: nat, add: Addition,
      w1: seq<Event>, w2: seq<Event>, chain: seq<nat>, node: Node, ok: bool)
    requires add.Ok() && Enterable(v, d, t, dir, parent, add.name, add.Entry(), chain, node)
    requires Growable(v, d, t, dir, a) && GrewBy(v, d, t.chains[dir], a, w1)
    requires PutsEntry(v, Replay(d, w1), t.chains[dir] + [a], start, run, add.Slots(), w2, ok)
    ensures Safe(t.chains[dir], a) ==> Atomic(v, d, d, w1 + w2, parent + [add.name], node)
    ensures ok ==> Entered(v, d, Replay(d, w1 + w2), parent + [add.name], node, Some(a),
                           Stepped(GrownTree(t, dir, a), 0, add.cluster, chain, add.Entry().directory))
    ensures !ok ==> Reads(v, d, Replay(d, w1 + w2))
  {
    hide WellFormed, DirSlots, Replay, NewChain, NewEntry, NodeAt, LeadsTo, Lookup, EntrySlots, TidyAll, PutsEntry,
      Addition.Slots,
         Fat, CopiesEqual, FreeSet, FsCount, Stepped, Grown, Agree, ReadsWith, Reads,
          Atomic, GrowStep, ReadBack, ShortFor, Permitted, Safe;
    var e, u := Replay(d, w1), GrownTree(t, dir, a);
    var target := parent + [add.name];
    ReplayConcat(d, w1, w2);
    GrewIs(v, d, t.chains[dir], a, w1);
    GrownEnterable(v, d, e, t, dir, a, parent, add.name, add.Entry(), chain, node);
    GrowReads(v, d, t, dir, a, e);
    assert u.chains[dir] == t.chains[dir] + [a];
    PutEntered(v, e, u, dir, parent, start, run, add, w2, chain, node, ok);
    ReadsAll(v, d, e, Replay(e, w2), target, node);
    if Safe(t.chains[dir], a) {
      GrowAtomic(v, d, t, dir, a, w1, target, node);
      Rebase(v, d, e, w2, target, node);
      AtomicConcat(v, d, d, w1, w2, target, node);
    }
    if ok {
      KeptGrown(v, d, e, Replay(e, w2), a);
    }
  }

  lemma GrewIs(v: Volume, d: Image, chain: seq<nat>, a: nat, w: seq<Event>)
    requires v.Holds(d) && chain != [] && GrewBy(v, d, chain, a, w)
    ensures v.Holds(Replay(d, w)) && Grown(v, d, Replay(d, w), chain, a) && GrowStep(v, d, Replay(d, w), chain, a)
    ensures CopiesEqual(v, d) ==> CopiesEqual(v, Replay(d, w))
    ensures FsCount(v, Replay(d, w)) == Moved(FsCount(v, d), -1, v.clusters)
  {
    hide Grown, CopiesEqual, FsCount, Replay;
  }

  lemma KeptGrown(v: Volume, d: Image, e: Image, f: Image, a: nat)
    requires v.Holds(d) && v.Holds(e) && v.Holds(f) && Kept(v, e, f, None)
    requires FreeSet(v, e) == FreeSet(v, d) - {a} && v.InRange(a) && Fat(v, d, a) == 0
    requires CopiesEqual(v, d) ==> CopiesEqual(v, e)
    requires FsCount(v, e) == Moved(FsCount(v, d), -1, v.clusters)
    ensures Kept(v, d, f, Some(a))
  {
    hide Fat, CopiesEqual, FsCount;
  }

  // ---- Adding an entry --------------------------------------------------------------------------

  /** The first alias no entry has. */
  method PickAlias(name: Name, taken: set<seq<byte>>) returns (r: Option<seq<byte>>)
    ensures r == FreeAlias(name, taken, 1)
  {
    hide Alias;
    for number := 1 to 1_000_000
      invariant FreeAlias(name, taken, 1) == FreeAlias(name, taken, number)
    {
      var candidate := Alias(name, number);
      if candidate !in taken {
        return Some(candidate);
      }
    }
    r := None;
  }

  /** The slots of a new entry: long-name slots from the last piece down, then
      the short one. */
  method BuildSlots(add: Addition) returns (slots: seq<Slot>)
    requires add.Ok()
    ensures slots == add.Slots()
  {
    hide LongSlot, ShortSlot, Checksum, ShortFor, ReadBack, Plain, Valid, Pieces;
    ShortForIs(add.name, add.taken);
    var checksum := Checksum(add.short.bytes);
    var pieces := if add.short.long then Pieces(|add.name|) else 0;
    slots := [];
    var piece := pieces;
    while piece > 0
      invariant 0 <= piece <= pieces
      invariant slots + LongSlots(add.name, piece, checksum) == LongSlots(add.name, pieces, checksum)
    {
      piece := piece - 1;
      slots := slots + [LongSlot(add.name, piece, checksum)];
    }
    assert slots + [] == slots;
    slots := slots + [ShortSlot(add.short, add.attr, add.cluster, add.size, add.stamp)];
  }

  ghost predicate HasRun(slots: seq<Slot>, n: nat) {
    exists s: nat :: FreeRun(slots, s, n)
  }

  /** The free slots a directory ends with, and `more`, make `n`. */
  ghost predicate EndRoom(slots: seq<Slot>, n: nat, more: nat) {
    exists s: nat, m: nat :: EndRun(slots, s, m) && n <= m + more
  }

  ghost predicate EndRun(slots: seq<Slot>, s: nat, m: nat) {
    FreeRun(slots, s, m) && s + m == |slots|
  }

  lemma EndRunUnique(slots: seq<Slot>, s: nat, m: nat, s': nat, m': nat)
    requires EndRun(slots, s, m) && EndRun(slots, s', m')
    ensures s == s' && m == m'
  {
    hide EndRun;
    EndRunIs(slots, s, m);
    EndRunIs(slots, s', m');
  }

  lemma EndRunIs(slots: seq<Slot>, s: nat, m: nat)
    requires EndRun(slots, s, m)
    ensures s + m == |slots| && FreeRun(slots, s, m)
    ensures forall k | s <= k < |slots| :: IsFree(slots[k])
    ensures s > 0 ==> !IsFree(slots[s - 1])
  {
  }

  lemma IsEndRun(slots: seq<Slot>, s: nat, m: nat)
    requires FreeRun(slots, s, m) && s + m == |slots|
    ensures EndRun(slots, s, m)
  {
  }

  lemma EndRoomIs(slots: seq<Slot>, s: nat, m: nat, n: nat, more: nat)
    requires EndRun(slots, s, m)
    ensures EndRoom(slots, n, more) <==> n <= m + more
  {
    hide EndRun;
    if EndRoom(slots, n, more) {
      var s': nat, m': nat :| EndRun(slots, s', m') && n <= m' + more;
      EndRunUnique(slots, s, m, s', m');
    }
  }

  /** Whether a new entry of `n` slots finds room: in the directory, or in its
      last free slots and the one cluster it may grow by. */
  ghost predicate HasRoom(v: Volume, d: Image, slots: seq<Slot>, n: nat)
    requires v.Holds(d)
  {
    HasRun(slots, n) || (FreeSet(v, d) != {} && EndRoom(slots, n, 16 * v.spc))
  }

  /** The cluster a directory is given for a new entry of `n` slots: the first
      free one, when no run of its own slots is long enough. */
  ghost function Growth(v: Volume, d: Image, slots: seq<Slot>, n: nat): Option<nat>
    requires v.Holds(d)
  {
    if HasRun(slots, n) || FreeFrom(v, d, 2) == [] then None else Some(FreeFrom(v, d, 2)[0])
  }

  ghost predicate SafeGrowth(chain: seq<nat>, grown: Option<nat>) {
    grown.None? || Safe(chain, grown.value)
  }

  /** A free run at the end of a directory goes on into its new cluster. */
  lemma RunGrows(slots: seq<Slot>, start: nat, run: nat, more: nat)
    requires EndRun(slots, start, run)
    ensures FreeRun(slots + FreshSlots(more), start, run + more)
  {
    var all := slots + FreshSlots(more);
    forall k | start <= k < start + run + more
      ensures IsFree(all[k])
    {
      if k < |slots| {
        assert all[k] == slots[k];
      }
    }
  }

  lemma FreeEmpty(v: Volume, d: Image)
    requires v.Holds(d)
    ensures FreeFrom(v, d, 2) == [] <==> FreeSet(v, d) == {}
    ensures FreeFrom(v, d, 2) != [] ==> FreeFrom(v, d, 2)[0] in FreeSet(v, d)
  {
    hide Fat, FreeFrom;
    var free := FreeFrom(v, d, 2);
    FreeFromIs(v, d, 2);
    forall c | c in FreeSet(v, d)
      ensures c in free
    {
    }
    if free != [] {
      assert v.InRange(free[0]) && Fat(v, d, free[0]) == 0;
      assert free[0] in FreeSet(v, d);
    } else {
      assert FreeSet(v, d) == {};
    }
  }

  lemma SlotsAre(add: Addition)
    requires add.Ok()
    ensures |add.Slots()| == 1 + if add.short.long then Pieces(|add.name|) else 0
  {
    hide LongSlots, ShortSlot;
  }

  lemma EnterableIs(v: Volume, d: Image, t: Tree, dir: nat, parent: Path, name: Name, entry: Entry, chain: seq<nat>,
      node: Node)
    requires Enterable(v, d, t, dir, parent, name, entry, chain, node)
    ensures WellFormed(v, d, t) && v.Holds(d) && dir in t.dirs && dir in t.chains && t.chains[dir] != []
    ensures LeadsTo(v, d, parent, dir)
    ensures v.spc > 0
    ensures var home := t.chains[dir];
            && v.AllIn(home) && Distinct(home) && v.InRange(home[|home| - 1]) && Fat(v, d, home[|home| - 1]) != 0
            && TailFree(DirSlots(v, d, home))
  {
    hide WellFormed, DirSlots, NewChain, NewEntry, NodeAt, LeadsTo, Lookup, Fat, NoOrphans, TailFree;
    TidyOf(v, d, t, dir);
    ListDirIs(v, d, t, dir);
    LastUsed(v, d, t, dir);
  }

  lemma RoomFor(v: Volume, d: Image, slots: seq<Slot>, start: nat, run: nat, n: nat)
    requires v.Holds(d) && FreeRun(slots, start, run) && n <= run
    ensures HasRoom(v, d, slots, n) && Growth(v, d, slots, n) == None
  {
    hide FreeSet;
    assert FreeRun(slots, start, n);
  }

  lemma NoRoom(v: Volume, d: Image, slots: seq<Slot>, start: nat, run: nat, n: nat)
    requires v.Holds(d) && EndRun(slots, start, run)
    requires forall s | 0 <= s && s + n <= |slots| :: !FreeRun(slots, s, n)
    ensures HasRoom(v, d, slots, n) <==> FreeSet(v, d) != {} && n <= run + 16 * v.spc
    ensures Growth(v, d, slots, n) == if FreeFrom(v, d, 2) == [] then None else Some(FreeFrom(v, d, 2)[0])
  {
    hide FreeSet, FreeFrom;
    EndRoomIs(slots, start, run, n, 16 * v.spc);
  }

  lemma ReadsSame(v: Volume, d: Image, t: Tree, target: Path, node: Node)
    requires WellFormed(v, d, t) && v.Holds(d)
    ensures Reads(v, d, d) && Atomic(v, d, d, [], target, node)
  {
    hide WellFormed, Contents;
    WholeBy(v, d, t);
    var w: seq<Event> := [];
    assert w[..0] == [];
  }

  lemma GrewOk(v: Volume, d: Image, t: Tree, dir: nat, a: nat, cache: seq<Cached>)
    requires WellFormed(v, d, t) && v.Holds(d) && v.fats > 0 && dir in t.dirs && dir in t.chains && t.chains[dir] != []
    requires v.InRange(a) && Fat(v, d, a) == 0 && GrowCache(v, d, cache, t.chains[dir][|t.chains[dir]| - 1], a)
    ensures Growable(v, d, t, dir, a) && GrewBy(v, d, t.chains[dir], a, GrowLog(v, d, a, cache))
    ensures a in FreeSet(v, d)
  {
    hide WellFormed, Fat, GrowCache, GrowLog, GrewBy, Linked;
    LastUsed(v, d, t, dir);
    NotOn(v, d, dir, t.chains[dir], a);
    GrewAll(v, d, t.chains[dir], a, cache);
  }

  /** Grown in the unsafe order, the writes go through an image that is not
      well formed. */
  lemma UnsafeOrder(v: Volume, d: Image, t: Tree, dir: nat, a: nat, cache: seq<Cached>, parent: Path, w2: seq<Event>,
      target: Path, node: Node)
    requires Growable(v, d, t, dir, a) && v.fats > 0 && LeadsTo(v, d, parent, dir) && !Safe(t.chains[dir], a)
    requires GrowCache(v, d, cache, t.chains[dir][|t.chains[dir]| - 1], a)
    ensures !Atomic(v, d, d, GrowLog(v, d, a, cache) + w2, target, node)
  {
    hide WellFormed, Fat, GrowCache, GrowLog, Find, Agree, Replay, Whole;
    var home := t.chains[dir];
    var w1 := GrowLog(v, d, a, cache);
    LastUsed(v, d, t, dir);
    var k := GrowUnsafe(v, d, cache, home[|home| - 1], a);
    PrefixSplit(d, w1, w2, k);
    Torn(v, d, Replay(d, w1[..k]), t, dir, parent, a);
    assert !AtomicAt(v, d, Replay(d, (w1 + w2)[..k]), target, node);
  }

  /** The directory as it is after growing: the slots it had, then empty ones,
      and the run it ended with that much longer. */
  lemma GrownReady(v: Volume, d: Image, e: Image, t: Tree, dir: nat, a: nat, parent: Path, name: Name, entry: Entry,
      chain: seq<nat>, node: Node, w: seq<Event>, start: nat, run: nat)
    requires Enterable(v, d, t, dir, parent, name, entry, chain, node) && Growable(v, d, t, dir, a)
    requires GrewBy(v, d, t.chains[dir], a, w) && e == Replay(d, w) && EndRun(DirSlots(v, d, t.chains[dir]), start, run)
    ensures v.Holds(e) && v.AllIn(t.chains[dir] + [a]) && Distinct(t.chains[dir] + [a])
    ensures FreeRun(DirSlots(v, e, t.chains[dir] + [a]), start, run + 16 * v.spc)
    ensures |DirSlots(v, e, t.chains[dir] + [a])| == |DirSlots(v, d, t.chains[dir])| + 16 * v.spc
    ensures start + (run + 16 * v.spc) == |DirSlots(v, e, t.chains[dir] + [a])|
  {
    hide WellFormed, DirSlots, NewChain, NewEntry, NodeAt, LeadsTo, Lookup, Fat, Replay, Grown, FreeRun, TidyAll,
      FreeSet, Linked;
    GrewIs(v, d, t.chains[dir], a, w);
    GrownEnterable(v, d, e, t, dir, a, parent, name, entry, chain, node);
    RunGrows(DirSlots(v, d, t.chains[dir]), start, run, 16 * v.spc);
    LastUsed(v, d, t, dir);
    NotOn(v, d, dir, t.chains[dir], a);
  }

  lemma PutsAre(v: Volume, d: Image, chain: seq<nat>, start: nat, run: nat, news: seq<Slot>, w: seq<Event>, ok: bool)
    requires v.Holds(d) && FreeRun(DirSlots(v, d, chain), start, run) && 0 < run
    requires start + run == |DirSlots(v, d, chain)| || |news| <= run
    requires ok <==> start + |news| <= |DirSlots(v, d, chain)|
    requires ok ==> SlotsLog(v, d, chain, start, news, w)
    requires !ok ==> SlotsLog(v, d, chain, start, news[..|DirSlots(v, d, chain)| - start], w)
    ensures PutsEntry(v, d, chain, start, run, news, w, ok)
  {
    hide DirSlots, SlotsLog;
  }

  lemma WentTo(d0: Image, log0: seq<Event>, d1: Image, log1: seq<Event>, w: seq<Event>)
    requires Went(d0, log0, d1, log1, w)
    ensures d1 == Replay(d0, w) && (w == [] ==> d1 == d0)
  {
  }

  lemma SafeGrowthIs(chain: seq<nat>, grown: Option<nat>)
    ensures SafeGrowth(chain, grown) <==> grown.None? || Safe(chain, grown.value)
  {
    hide Safe;
  }

  /** A new entry's slots written, after growth if there is no run for them. At
      every stop the volume
      is well formed and reads as before or with the entry there, if and only if
      the directory is not to grow in the unsafe order. It succeeds exactly when
      there is room. */
  method AddEntry(v: Volume, disk: Disk, directory: Directory, name: Name, short: Short, attr: byte, cluster: nat,
      size: nat, stamp: Stamp, ghost t: Tree, ghost dir: nat, ghost parent: Path, ghost chain: seq<nat>,
      ghost node: Node)
    returns (ok: bool, ghost w: seq<Event>, ghost u: Tree)
    requires v.Holds(disk.sectors) && v.fats > 0
    requires var add := Addition(name, short, TakenIn(directory.items), attr, cluster, size, stamp);
             add.Ok() && Enterable(v, disk.sectors, t, dir, parent, name, add.Entry(), chain, node)
    requires directory.chain == t.chains[dir] && directory.slots == DirSlots(v, disk.sectors, directory.chain)
    modifies disk
    ensures Went(old(disk.sectors), old(disk.log), disk.sectors, disk.log, w)
    ensures ok <==> HasRoom(v, old(disk.sectors), directory.slots, 1 + if short.long then Pieces(|name|) else 0)
    ensures var grown := Growth(v, old(disk.sectors), directory.slots, 1 + if short.long then Pieces(|name|) else 0);
            && (Atomic(v, old(disk.sectors), old(disk.sectors), w, parent + [name], node)
                <==> SafeGrowth(directory.chain, grown))
            && (ok ==> Entered(v, old(disk.sectors), disk.sectors, parent + [name], node, grown, u))
    ensures !ok ==> Reads(v, old(disk.sectors), disk.sectors)
  {
    hide *;
    ghost var d, log := disk.sectors, disk.log;
    var add := Addition(name, short, TakenIn(directory.items), attr, cluster, size, stamp);
    var news := BuildSlots(add);
    SlotsAre(add);
    EnterableIs(v, d, t, dir, parent, name, add.Entry(), chain, node);
    var start, run := FindRoom(directory.slots, |news|);
    var home := directory.chain;
    w, u := [], t;
    WentNone(d, log);
    FreeEmpty(v, d);
    SafeGrowthIs(home, None);
    if run < |news| {
      IsEndRun(directory.slots, start, run);
      NoRoom(v, d, directory.slots, start, run, |news|);
      ghost var w1, cache;
      var added;
      added, w1, cache := Grow(v, disk, home);
      WentTo(d, log, disk.sectors, disk.log, w1);
      if added.None? {
        ReadsSame(v, d, t, parent + [name], node);
        return false, [], t;
      }
      SafeGrowthIs(home, added);
      home := home + [added.value];
      GrewOk(v, d, t, dir, added.value, cache);
      GrownReady(v, d, disk.sectors, t, dir, added.value, parent, name, add.Entry(), chain, node, w1, start, run);
      ghost var mid, log1 := disk.sectors, disk.log;
      ghost var w2;
      ok, w2 := WriteSlots(v, disk, home, start, news);
      WentOn(d, log, mid, log1, w1, disk.sectors, disk.log, w2);
      PutsAre(v, mid, home, start, run + 16 * v.spc, news, w2, ok);
      if !Safe(t.chains[dir], added.value) {
        UnsafeOrder(v, d, t, dir, added.value, cache, parent, w2, parent + [name], node);
      }
      GrewEntered(v, d, t, dir, added.value, parent, start, run + 16 * v.spc, add, w1, w2, chain, node, ok);
      w, u := w1 + w2, Stepped(GrownTree(t, dir, added.value), 0, cluster, chain, add.Entry().directory);
    } else {
      RoomFor(v, d, directory.slots, start, run, |news|);
      ok, w := WriteSlots(v, disk, home, start, news);
      PutsAre(v, d, home, start, run, news, w, ok);
      PutEntered(v, d, t, dir, parent, start, run, add, w, chain, node, ok);
      u := Stepped(t, 0, cluster, chain, add.Entry().directory);
    }
    WentTo(d, log, disk.sectors, disk.log, w);
  }
}
