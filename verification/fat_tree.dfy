/** The tree of files a volume holds: paths, contents, and what it means for
    the volume to be well formed. */
module FatTree {
  import opened Base
  import opened Blocks
  import opened FatLayout
  import opened FatChain
  import opened FatData
  import opened FatNames
  import opened FatDirectory

  // ---- Reading the tree -------------------------------------------------------------------------

  ghost function SlotAt(s: Sector, i: nat): Slot
    requires i < 16
  {
    s[32 * i..32 * i + 32]
  }

  /** The 32-byte slots of some sectors. */
  ghost function SlotsOf(sectors: seq<Sector>): (r: seq<Slot>)
    ensures |r| == 16 * |sectors|
  {
    seq(16 * |sectors|, k requires 0 <= k < 16 * |sectors| => SlotAt(sectors[k / 16], k % 16))
  }

  ghost function DirSlots(v: Volume, d: Image, chain: seq<nat>): seq<Slot>
    requires v.Holds(d)
  {
    if v.AllIn(chain) then SlotsOf(GatherChain(v, d, chain)) else []
  }

  ghost function DirItems(v: Volume, d: Image, chain: seq<nat>): seq<Item>
    requires v.Holds(d)
  {
    Items(DirSlots(v, d, chain))
  }

  /** The entries of the directory at `cluster`; None when its chain is broken. */
  ghost function ListDir(v: Volume, d: Image, cluster: nat): Option<seq<Item>>
    requires v.Holds(d)
  {
    var chain := ChainOf(v, d, cluster);
    if chain.None? then None else Some(DirItems(v, d, chain.value))
  }

  /** The least index of an item whose name folds to the same as `name`. */
  function Lookup(v: Volume, items: seq<Item>, name: Name): (r: Option<nat>)
    ensures r.Some? ==> r.value < |items| && v.SameName(items[r.value].name, name)
    ensures r.Some? ==> forall i | 0 <= i < r.value :: !v.SameName(items[i].name, name)
    ensures r.None? ==> forall i | 0 <= i < |items| :: !v.SameName(items[i].name, name)
  {
    if items == [] then None
    else if v.SameName(items[0].name, name) then Some(0)
    else
      var rest := Lookup(v, items[1..], name);
      if rest.None? then None else Some(rest.value + 1)
  }

  ghost function LookupEntry(v: Volume, items: seq<Item>, name: Name): Option<Entry> {
    var at := Lookup(v, items, name);
    if at.None? then None else Some(items[at.value].entry)
  }

  type Path = seq<Name>

  function RootEntry(v: Volume): Entry {
    Entry(v.root, 0, true)
  }

  /** The entry a path leads to, part by part from the root. */
  ghost function Find(v: Volume, d: Image, path: Path): Option<Entry>
    requires v.Holds(d)
  {
    if path == [] then Some(RootEntry(v))
    else Enter(v, d, Find(v, d, path[..|path| - 1]), path[|path| - 1])
  }

  /** One part of a path, taken in the directory reached so far. */
  ghost function Enter(v: Volume, d: Image, at: Option<Entry>, name: Name): Option<Entry>
    requires v.Holds(d)
  {
    if at.None? || !at.value.directory then None
    else
      var items := ListDir(v, d, at.value.cluster);
      if items.None? then None else LookupEntry(v, items.value, name)
  }

  datatype Node = Folder | File(bytes: seq<byte>)

  /** What a reader finds at a path: a directory, a file's bytes, or nothing
      readable. */
  ghost function Contents(v: Volume, d: Image, path: Path): Option<Node>
    requires v.Holds(d)
  {
    NodeAt(v, d, Find(v, d, path))
  }

  ghost function NodeAt(v: Volume, d: Image, entry: Option<Entry>): Option<Node>
    requires v.Holds(d)
  {
    if entry.None? then None
    else if entry.value.directory then Some(Folder)
    else
      var bytes := FileBytes(v, d, entry.value, entry.value.size);
      if bytes.None? then None else Some(File(bytes.value))
  }

  ghost predicate SamePath(v: Volume, a: Path, b: Path) {
    |a| == |b| && forall i | 0 <= i < |a| :: v.SameName(a[i], b[i])
  }

  // ---- Well-formed volumes ----------------------------------------------------------------------

  /** The chains in use: those of the directories `dirs` and of the files. */
  datatype Tree = Tree(dirs: set<nat>, chains: map<nat, seq<nat>>)

  ghost predicate NoShare(a: seq<nat>, b: seq<nat>) {
    forall c | c in a :: c !in b
  }

  /** The clusters of all chains in use. */
  ghost predicate Owned(t: Tree, c: nat) {
    exists f :: f in t.chains && c in t.chains[f]
  }

  ghost predicate ChainsOk(v: Volume, d: Image, t: Tree)
    requires v.Holds(d)
  {
    && (forall f | f in t.chains :: t.chains[f] != [] && IsChain(v, d, f, t.chains[f]))
    && (forall f, g | f in t.chains && g in t.chains && f != g :: NoShare(t.chains[f], t.chains[g]))
  }

  /** An entry leads to a chain in use, long enough for its size. */
  ghost predicate EntryOk(v: Volume, t: Tree, e: Entry) {
    if e.directory then e.cluster in t.dirs && e.cluster != v.root
    else if e.cluster == 0 then e.size == 0
    else e.cluster in t.chains && e.cluster !in t.dirs && e.size <= 512 * |ChainLbas(v, t.chains[e.cluster])|
  }

  ghost function ItemsIn(v: Volume, d: Image, t: Tree, dir: nat): seq<Item>
    requires v.Holds(d) && dir in t.chains
  {
    DirItems(v, d, t.chains[dir])
  }

  ghost predicate EntriesOk(v: Volume, d: Image, t: Tree)
    requires v.Holds(d) && t.dirs <= t.chains.Keys
  {
    forall dir, i | dir in t.dirs && 0 <= i < |ItemsIn(v, d, t, dir)| :: EntryOk(v, t, ItemsIn(v, d, t, dir)[i].entry)
  }

  /** No two entries, in one directory or in two, lead to the same chain. */
  ghost predicate RefsUnique(v: Volume, d: Image, t: Tree)
    requires v.Holds(d) && t.dirs <= t.chains.Keys
  {
    forall a, i, b, j | a in t.dirs && 0 <= i < |ItemsIn(v, d, t, a)| && b in t.dirs && 0 <= j < |ItemsIn(v, d, t, b)|
                        && ItemsIn(v, d, t, a)[i].entry.cluster == ItemsIn(v, d, t, b)[j].entry.cluster != 0 ::
      a == b && i == j
  }

  /** A well-formed volume: every entry of every directory in use leads to a
      whole chain inside the partition, no cluster is in two chains, and no
      chain has two entries. */
  ghost predicate WellFormed(v: Volume, d: Image, t: Tree) {
    && v.Holds(d)
    && v.root in t.dirs && t.dirs <= t.chains.Keys
    && ChainsOk(v, d, t)
    && EntriesOk(v, d, t)
    && RefsUnique(v, d, t)
  }

  /** No cluster of a chain in use is free. */
  lemma OwnedNotFree(v: Volume, d: Image, t: Tree, c: nat)
    requires WellFormed(v, d, t) && Owned(t, c)
    ensures v.InRange(c) && Fat(v, d, c) != 0
  {
    hide EntriesOk, RefsUnique, Fat;
    var f :| f in t.chains && c in t.chains[f];
    var chain := t.chains[f];
    assert IsChain(v, d, f, chain);
    var i :| 0 <= i < |chain| && chain[i] == c;
    assert v.InRange(chain[i]);
    if i < |chain| - 1 {
      assert Fat(v, d, chain[i]) == chain[i + 1] && v.InRange(chain[i + 1]);
    }
  }

  lemma ListDirIs(v: Volume, d: Image, t: Tree, dir: nat)
    requires WellFormed(v, d, t) && dir in t.chains
    ensures ChainOf(v, d, dir) == Some(t.chains[dir]) && v.AllIn(t.chains[dir]) && t.chains[dir] != []
    ensures ListDir(v, d, dir) == Some(ItemsIn(v, d, t, dir))
  {
    hide EntriesOk, RefsUnique, DirItems;
    ChainOfExact(v, d, dir, t.chains[dir]);
  }

  /** What a path leads to is an entry of the tree. */
  lemma {:induction false} FindOk(v: Volume, d: Image, t: Tree, path: Path)
    requires WellFormed(v, d, t)
    ensures var e := Find(v, d, path);
            && (e.Some? && path != [] ==> EntryOk(v, t, e.value))
            && (e.Some? && e.value.directory ==> e.value.cluster in t.dirs)
  {
    hide RefsUnique, DirItems, ChainsOk;
    if path != [] {
      var parent := Find(v, d, path[..|path| - 1]);
      FindOk(v, d, t, path[..|path| - 1]);
      if parent.Some? && parent.value.directory {
        ListDirIs(v, d, t, parent.value.cluster);
      }
    }
  }

  /** What a path leads to is an item of the directory above it. */
  lemma FoundAt(v: Volume, d: Image, t: Tree, p: Path) returns (dir: nat, i: nat)
    requires WellFormed(v, d, t) && p != [] && Find(v, d, p).Some?
    ensures v.Holds(d) && dir in t.dirs && dir in t.chains && i < |ItemsIn(v, d, t, dir)|
    ensures Find(v, d, p[..|p| - 1]).Some? && Find(v, d, p[..|p| - 1]).value.directory
    ensures Find(v, d, p[..|p| - 1]).value.cluster == dir
    ensures ItemsIn(v, d, t, dir)[i].entry == Find(v, d, p).value
    ensures v.SameName(ItemsIn(v, d, t, dir)[i].name, p[|p| - 1])
  {
    hide DirItems, ChainsOk, EntriesOk, RefsUnique;
    var up := p[..|p| - 1];
    FindOk(v, d, t, up);
    dir := Find(v, d, up).value.cluster;
    ListDirIs(v, d, t, dir);
    i := Lookup(v, ItemsIn(v, d, t, dir), p[|p| - 1]).value;
  }

  lemma RefOne(v: Volume, d: Image, t: Tree, a: nat, i: nat, b: nat, j: nat)
    requires WellFormed(v, d, t) && a in t.dirs && b in t.dirs && i < |ItemsIn(v, d, t, a)| && j < |ItemsIn(v, d, t, b)|
    requires ItemsIn(v, d, t, a)[i].entry.cluster == ItemsIn(v, d, t, b)[j].entry.cluster != 0
    ensures a == b && i == j
  {
    hide DirItems, ChainsOk, EntriesOk;
  }

  /** Each directory has one path, up to the case of names. */
  lemma {:induction false} PathUnique(v: Volume, d: Image, t: Tree, p: Path, q: Path)
    requires WellFormed(v, d, t)
    requires Find(v, d, p).Some? && Find(v, d, q).Some?
    requires Find(v, d, p).value.cluster == Find(v, d, q).value.cluster
    requires Find(v, d, p).value.directory && Find(v, d, q).value.directory
    ensures SamePath(v, p, q)
    decreases |p|
  {
    hide DirItems, ChainsOk, EntriesOk, RefsUnique, EntryOk;
    FindOk(v, d, t, p);
    NotZero(v, d, t, Find(v, d, p).value.cluster);
    if p != [] && q != [] {
      var a, i := FoundAt(v, d, t, p);
      var b, j := FoundAt(v, d, t, q);
      RefOne(v, d, t, a, i, b, j);
      PathUnique(v, d, t, p[..|p| - 1], q[..|q| - 1]);
      SamePathStep(v, p, q);
    } else {
      BelowRoot(v, d, t, p);
      BelowRoot(v, d, t, q);
    }
  }

  lemma SamePathStep(v: Volume, p: Path, q: Path)
    requires p != [] && q != [] && SamePath(v, p[..|p| - 1], q[..|q| - 1]) && v.SameName(p[|p| - 1], q[|q| - 1])
    ensures SamePath(v, p, q)
  {
    forall i | 0 <= i < |p|
      ensures v.SameName(p[i], q[i])
    {
      if i < |p| - 1 {
        assert p[..|p| - 1][i] == p[i] && q[..|q| - 1][i] == q[i];
      }
    }
  }

  /** No entry leads back to the root. */
  lemma BelowRoot(v: Volume, d: Image, t: Tree, p: Path)
    requires WellFormed(v, d, t) && Find(v, d, p).Some? && Find(v, d, p).value.directory
    ensures Find(v, d, p).value.cluster == v.root <==> p == []
  {
    hide DirItems, ChainsOk, EntriesOk, RefsUnique;
    FindOk(v, d, t, p);
  }

  lemma NotZero(v: Volume, d: Image, t: Tree, dir: nat)
    requires WellFormed(v, d, t) && dir in t.chains
    ensures dir != 0
  {
    hide EntriesOk, RefsUnique;
    assert IsChain(v, d, dir, t.chains[dir]);
    assert v.InRange(t.chains[dir][0]);
  }
}
