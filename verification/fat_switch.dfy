/** The switch at the heart of every allocating write: one directory entry made
    to lead to a chain nothing led to before. */
module FatSwitch {
  import opened Base
  import opened Blocks
  import opened FatLayout
  import opened FatChain
  import opened FatData
  import opened FatDirectory
  import opened FatTree
  import opened FatFrame
  import opened FatPaths
  import opened FatTables
  import opened FatSlots

  /** `chain` starts at `first`, ends properly, and shares no cluster with the
      chains in use; 0 stands for no chain at all. */
  ghost predicate NewChain(v: Volume, d: Image, t: Tree, first: nat, chain: seq<nat>)
    requires v.Holds(d)
  {
    if first == 0 then chain == []
    else chain != [] && IsChain(v, d, first, chain)
         && forall f | f in t.chains :: NoShare(t.chains[f], chain) && NoShare(chain, t.chains[f])
  }

  /** The chains in use once `first` is taken up and `gone` let go. */
  ghost function Stepped(t: Tree, gone: nat, first: nat, chain: seq<nat>, folder: bool): Tree {
    Tree(t.dirs - {gone} + (if folder then {first} else {}),
         (t.chains - {gone}) + (if first == 0 then map[] else map[first := chain]))
  }

  lemma SteppedOk(v: Volume, d: Image, t: Tree, gone: nat, first: nat, chain: seq<nat>, folder: bool)
    requires WellFormed(v, d, t) && NewChain(v, d, t, first, chain)
    requires gone != v.root && (folder ==> first != 0)
    ensures TreeStep(v, t, Stepped(t, gone, first, chain, folder), gone, first, folder)
    ensures first !in t.chains
  {
    hide EntriesOk, RefsUnique, Linked;
    ZeroNoChain(v, d, t);
    if first != 0 {
      NewStart(v, d, t, first, chain);
    }
    if first in t.chains {
      FirstIn(v, d, t, first);
    }
  }

  lemma FirstIn(v: Volume, d: Image, t: Tree, f: nat)
    requires WellFormed(v, d, t) && f in t.chains
    ensures f in t.chains[f]
  {
    hide EntriesOk, RefsUnique, Linked;
    assert IsChain(v, d, f, t.chains[f]) && f == t.chains[f][0];
  }

  lemma NewStart(v: Volume, d: Image, t: Tree, first: nat, chain: seq<nat>)
    requires v.Holds(d) && first != 0 && NewChain(v, d, t, first, chain)
    ensures first in chain && v.InRange(first)
  {
    assert first == chain[0] && v.InRange(chain[0]);
  }

  /** The entry fits what it leads to. */
  ghost predicate NewEntry(v: Volume, d: Image, entry: Entry, chain: seq<nat>)
    requires v.Holds(d)
  {
    && (if entry.cluster == 0 then entry.size == 0 && !entry.directory else entry.size <= 512 * |ChainLbas(v, chain)|)
    && (entry.directory ==> DirItems(v, d, chain) == [])
  }

  ghost function After(v: Volume, d: Image, target: Path, entry: Entry, path: Path): Option<Node>
    requires v.Holds(d)
  {
    if SamePath(v, path, target) then NodeAt(v, d, Some(entry)) else Contents(v, d, path)
  }

  /** Directory `dir` was rewritten: it holds the entries it held, but that
      `name` now leads to `entry` (item `i` of the old list replaced, when
      i < j, or a new item put in at `i`). */
  ghost predicate Switch(v: Volume, d: Image, e: Image, t: Tree, dir: nat, name: Name, i: nat, j: nat, entry: Entry)
    requires v.Holds(d)
  {
    && dir in t.dirs && dir in t.chains
    && v.Holds(e) && SameHead(v, d, e) && Agree(v, d, e, Elements(t.chains[dir]))
    && SwitchItems(v, ItemsIn(v, d, t, dir), ItemsIn(v, e, t, dir), name, i, j, entry)
  }

  ghost predicate SwitchItems(v: Volume, before: seq<Item>, after: seq<Item>, name: Name, i: nat, j: nat,
      entry: Entry) {
    && Spliced(before, after, i, j, [entry])
    && (i < j ==> !before[i].entry.directory)
    && (LookupEntry(v, before, name).Some? ==> !LookupEntry(v, before, name).value.directory)
    && LookupEntry(v, after, name) == Some(entry)
    && (forall n: Name | !v.SameName(n, name) :: LookupEntry(v, after, n) == LookupEntry(v, before, n))
  }

  lemma SwitchOnly(v: Volume, d: Image, e: Image, t: Tree, dir: nat, name: Name, i: nat, j: nat, entry: Entry)
    requires v.Holds(d) && Switch(v, d, e, t, dir, name, i, j, entry)
    ensures OnlyDir(v, d, e, t, dir)
  {
    hide SwitchItems, Agree, DirItems, Fat, SameHead;
    SameHeadFat(v, d, e);
    assert Elements(t.chains[dir]) == set c | c in t.chains[dir];
  }

  /** The new chain is the same on both sides of the switch. */
  lemma SwitchChain(v: Volume, d: Image, e: Image, t: Tree, dir: nat, name: Name, i: nat, j: nat, entry: Entry,
      chain: seq<nat>)
    requires v.Holds(d) && Switch(v, d, e, t, dir, name, i, j, entry)
    requires entry.cluster != 0 && NewChain(v, d, t, entry.cluster, chain)
    ensures IsChain(v, e, entry.cluster, chain) && v.AllIn(chain)
    ensures ChainOf(v, d, entry.cluster) == Some(chain) && ChainOf(v, e, entry.cluster) == Some(chain)
    ensures DirItems(v, e, chain) == DirItems(v, d, chain) && Bytes(v, e, chain) == Bytes(v, d, chain)
  {
    hide SwitchItems, Agree, DirItems, SameHead, Bytes, ChainOf;
    assert NoShare(chain, t.chains[dir]);
    SameChain(v, d, e, entry.cluster, chain, Elements(t.chains[dir]));
  }

  /** What the new entry leads to reads the same on both sides. */
  lemma SwitchNode(v: Volume, d: Image, e: Image, t: Tree, dir: nat, name: Name, i: nat, j: nat, entry: Entry,
      chain: seq<nat>)
    requires v.Holds(d) && Switch(v, d, e, t, dir, name, i, j, entry)
    requires NewChain(v, d, t, entry.cluster, chain) && NewEntry(v, d, entry, chain)
    ensures NodeAt(v, e, Some(entry)) == NodeAt(v, d, Some(entry))
    ensures entry.directory ==> ListDir(v, e, entry.cluster) == Some([])
  {
    hide SwitchItems, SameHead, Agree, Bytes, DirItems, ChainOf, IsChain;
    if entry.cluster != 0 {
      SwitchChain(v, d, e, t, dir, name, i, j, entry, chain);
    }
  }

  /** A switch is an edit that keeps a volume well formed. */
  lemma SwitchEdit(v: Volume, d: Image, e: Image, t: Tree, dir: nat, name: Name, i: nat, j: nat, entry: Entry,
      chain: seq<nat>, gone: nat, u: Tree)
    requires WellFormed(v, d, t) && Switch(v, d, e, t, dir, name, i, j, entry)
    requires NewChain(v, d, t, entry.cluster, chain) && NewEntry(v, d, entry, chain)
    requires i <= j <= |ItemsIn(v, d, t, dir)| && gone == Gone(ItemsIn(v, d, t, dir), i, j) && gone !in t.dirs
    requires u == Stepped(t, gone, entry.cluster, chain, entry.directory)
    requires TreeStep(v, t, u, gone, entry.cluster, entry.directory) && entry.cluster !in t.chains
    ensures dir in u.dirs && u.dirs <= u.chains.Keys
    ensures EditOk(v, d, e, t, u, dir, i, j, [entry])
  {
    hide EntriesOk, RefsUnique, ChainsOk, DirItems, Linked, SameHead, Agree, TreeStep, ChainOf, Lookup;
    SteppedDir(v, d, t, gone, entry.cluster, chain, entry.directory, dir);
    assert ItemsIn(v, e, u, dir) == ItemsIn(v, e, t, dir);
    if entry.cluster != 0 {
      SwitchChain(v, d, e, t, dir, name, i, j, entry, chain);
    }
  }

  /** The volume stays well formed through the switch. */
  lemma SwitchTree(v: Volume, d: Image, e: Image, t: Tree, dir: nat, name: Name, i: nat, j: nat, entry: Entry,
      chain: seq<nat>)
    requires WellFormed(v, d, t) && Switch(v, d, e, t, dir, name, i, j, entry)
    requires NewChain(v, d, t, entry.cluster, chain) && NewEntry(v, d, entry, chain)
    ensures i <= j <= |ItemsIn(v, d, t, dir)|
    ensures WellFormed(v, e, Stepped(t, Gone(ItemsIn(v, d, t, dir), i, j), entry.cluster, chain, entry.directory))
  {
    hide EntriesOk, RefsUnique, ChainsOk, DirItems, SameHead, Agree, OnlyDir, TreeStep, NewChain, NewEntry, EditOk,
      Stepped, Lookup;
    var before := ItemsIn(v, d, t, dir);
    assert i <= j <= |before| && (i < j ==> j == i + 1);
    var gone := Gone(before, i, j);
    var u := Stepped(t, gone, entry.cluster, chain, entry.directory);
    GoneFile(v, d, t, dir, i, j);
    NewFolder(v, d, entry, chain);
    SteppedOk(v, d, t, gone, entry.cluster, chain, entry.directory);
    SwitchOnly(v, d, e, t, dir, name, i, j, entry);
    SwitchEdit(v, d, e, t, dir, name, i, j, entry, chain, gone, u);
    EditTree(v, d, e, t, u, dir, i, j, [entry]);
  }

  lemma NewFolder(v: Volume, d: Image, entry: Entry, chain: seq<nat>)
    requires v.Holds(d) && NewEntry(v, d, entry, chain)
    ensures entry.directory ==> entry.cluster != 0
  {
    hide DirItems;
  }

  lemma SteppedDir(v: Volume, d: Image, t: Tree, gone: nat, first: nat, chain: seq<nat>, folder: bool, dir: nat)
    requires WellFormed(v, d, t) && dir in t.dirs && gone !in t.dirs && first !in t.chains && (folder ==> first != 0)
    ensures var u := Stepped(t, gone, first, chain, folder);
            && dir in u.dirs && u.dirs <= u.chains.Keys && u.chains[dir] == t.chains[dir] && dir != gone && dir != first
            && (first in u.chains ==> u.chains[first] == chain && first != 0)
  {
    hide EntriesOk, RefsUnique, ChainsOk;
    ZeroNoChain(v, d, t);
  }

  /** What a switch lets go of is no directory. */
  lemma GoneFile(v: Volume, d: Image, t: Tree, dir: nat, i: nat, j: nat)
    requires WellFormed(v, d, t) && dir in t.dirs && i <= j <= |ItemsIn(v, d, t, dir)|
    requires i < j ==> j == i + 1 && !ItemsIn(v, d, t, dir)[i].entry.directory
    ensures Gone(ItemsIn(v, d, t, dir), i, j) !in t.dirs && Gone(ItemsIn(v, d, t, dir), i, j) != v.root
  {
    hide RefsUnique, ChainsOk, DirItems;
    ZeroNoChain(v, d, t);
    if i < j {
      assert EntryOk(v, t, ItemsIn(v, d, t, dir)[i].entry);
    }
  }

  /** `parent` is a path to directory `dir`. */
  ghost predicate LeadsTo(v: Volume, d: Image, parent: Path, dir: nat)
    requires v.Holds(d)
  {
    Find(v, d, parent).Some? && Find(v, d, parent).value.directory && Find(v, d, parent).value.cluster == dir
  }

  /** Every path reads as before the switch, but the target, which reads as
      what its new entry leads to. */
  lemma SwitchContents(v: Volume, d: Image, e: Image, t: Tree, dir: nat, parent: Path, name: Name, i: nat, j: nat,
      entry: Entry, chain: seq<nat>, path: Path)
    requires WellFormed(v, d, t) && Switch(v, d, e, t, dir, name, i, j, entry) && LeadsTo(v, d, parent, dir)
    requires NewChain(v, d, t, entry.cluster, chain) && NewEntry(v, d, entry, chain)
    ensures v.Holds(d) && v.Holds(e)
    ensures Contents(v, e, path) == After(v, d, parent + [name], entry, path)
  {
    hide WellFormed, SwitchItems, SameHead, Agree, NewEntry, NewChain, FileBytes, Renamed, ListDir;
    TreeHolds(v, d, t);
    SwitchNode(v, d, e, t, dir, name, i, j, entry, chain);
    SwitchRenamed(v, d, e, t, dir, parent, name, i, j, entry, chain);
    FindRenamed(v, d, e, t, parent, name, Some(entry), path);
    if Below(v, path, parent + [name]) {
      NothingBelow(v, d, e, t, parent, name, Some(entry), path);
    } else if !SamePath(v, path, parent + [name]) {
      SwitchOther(v, d, e, t, dir, name, i, j, entry, path);
    }
  }

  lemma SwitchRenamed(v: Volume, d: Image, e: Image, t: Tree, dir: nat, parent: Path, name: Name, i: nat, j: nat,
      entry: Entry, chain: seq<nat>)
    requires WellFormed(v, d, t) && Switch(v, d, e, t, dir, name, i, j, entry) && LeadsTo(v, d, parent, dir)
    requires NewChain(v, d, t, entry.cluster, chain) && NewEntry(v, d, entry, chain)
    ensures Renamed(v, d, e, t, parent, name, Some(entry))
  {
    hide EntriesOk, RefsUnique, ChainsOk, Spliced, SameHead, Agree, DirItems, Find, NewEntry, NewChain, OnlyDir,
      ListDir, Lookup;
    SwitchOnly(v, d, e, t, dir, name, i, j, entry);
    SwitchNode(v, d, e, t, dir, name, i, j, entry, chain);
    forall g | g in t.dirs
      ensures ListDir(v, e, g) == Some(ItemsIn(v, e, t, g)) && ListDir(v, d, g) == Some(ItemsIn(v, d, t, g))
      ensures g != dir ==> ListDir(v, e, g) == ListDir(v, d, g)
    {
      OtherChain(v, d, e, t, dir, g);
      ListDirIs(v, d, t, g);
      ListedAs(v, e, t, g);
    }
  }

  lemma ListedAs(v: Volume, e: Image, t: Tree, dir: nat)
    requires v.Holds(e) && dir in t.chains && ChainOf(v, e, dir) == Some(t.chains[dir])
    ensures ListDir(v, e, dir) == Some(ItemsIn(v, e, t, dir))
  {
    hide DirItems, ChainOf;
  }

  /** A path away from the target reads the same bytes. */
  lemma SwitchOther(v: Volume, d: Image, e: Image, t: Tree, dir: nat, name: Name, i: nat, j: nat, entry: Entry,
      path: Path)
    requires WellFormed(v, d, t) && Switch(v, d, e, t, dir, name, i, j, entry)
    ensures v.Holds(d) && v.Holds(e)
    ensures NodeAt(v, e, Find(v, d, path)) == NodeAt(v, d, Find(v, d, path))
  {
    hide EntriesOk, RefsUnique, SwitchItems, FileBytes, DirItems, SameHead, Agree, IsChain, ChainLbas;
    var at := Find(v, d, path);
    FindOk(v, d, t, path);
    if at.Some? && !at.value.directory {
      FindFile(v, d, path);
      if at.value.cluster != 0 {
        assert NoShare(t.chains[at.value.cluster], t.chains[dir]);
      }
      SameFile(v, d, e, t, Elements(t.chains[dir]), at.value);
    }
  }
}
