/** What a change on the disk does to the tree: nothing, when it stays outside
    the chains in use; one entry, when it rewrites one directory. */
module FatFrame {
  import opened Base
  import opened Blocks
  import opened FatLayout
  import opened FatChain
  import opened FatData
  import opened FatDirectory
  import opened FatTree

  // ---- Changes outside the tree -----------------------------------------------------------------

  ghost predicate Untouched(t: Tree, touched: set<nat>) {
    forall f, c | f in t.chains && c in t.chains[f] :: c !in touched
  }

  lemma SameData(v: Volume, d: Image, e: Image, chain: seq<nat>, touched: set<nat>)
    requires v.Holds(d) && Agree(v, d, e, touched) && v.AllIn(chain)
    requires forall c | c in chain :: c !in touched
    ensures v.Holds(e) && GatherChain(v, e, chain) == GatherChain(v, d, chain)
    ensures DirItems(v, e, chain) == DirItems(v, d, chain)
  {
    hide Owns, Fat, ChainLbas;
    var lbas := ChainLbas(v, chain);
    forall i | 0 <= i < |lbas|
      ensures GatherChain(v, e, chain)[i] == GatherChain(v, d, chain)[i]
    {
      var j := ChainOwner(v, chain, i);
      OwnedInside(v, d, chain[j], lbas[i]);
      assert e[lbas[i]] == d[lbas[i]];
    }
    assert GatherChain(v, e, chain) == GatherChain(v, d, chain);
  }

  /** A chain outside `touched` is the same chain, with the same bytes. */
  lemma SameChain(v: Volume, d: Image, e: Image, first: nat, chain: seq<nat>, touched: set<nat>)
    requires v.Holds(d) && Agree(v, d, e, touched) && IsChain(v, d, first, chain)
    requires forall c | c in chain :: c !in touched
    ensures v.Holds(e) && IsChain(v, e, first, chain)
    ensures ChainOf(v, d, first) == Some(chain) && ChainOf(v, e, first) == Some(chain)
    ensures DirItems(v, e, chain) == DirItems(v, d, chain)
    ensures Bytes(v, e, chain) == Bytes(v, d, chain)
  {
    hide Fat, DirItems;
    SameData(v, d, e, chain, touched);
    ChainFrame(v, d, e, first, chain);
  }

  lemma SameTree(v: Volume, d: Image, e: Image, t: Tree, touched: set<nat>)
    requires WellFormed(v, d, t) && Agree(v, d, e, touched) && Untouched(t, touched)
    ensures WellFormed(v, e, t)
    ensures forall dir | dir in t.chains :: ItemsIn(v, e, t, dir) == ItemsIn(v, d, t, dir)
  {
    hide Agree, DirItems, EntryOk;
    assert v.Holds(e) by {
      SameChain(v, d, e, v.root, t.chains[v.root], touched);
    }
    forall dir | dir in t.chains
      ensures IsChain(v, e, dir, t.chains[dir]) && ItemsIn(v, e, t, dir) == ItemsIn(v, d, t, dir)
    {
      SameChain(v, d, e, dir, t.chains[dir], touched);
    }
    SameRefs(v, d, e, t);
  }

  lemma SameRefs(v: Volume, d: Image, e: Image, t: Tree)
    requires v.Holds(d) && v.Holds(e) && t.dirs <= t.chains.Keys
    requires EntriesOk(v, d, t) && RefsUnique(v, d, t)
    requires forall dir | dir in t.chains :: ItemsIn(v, e, t, dir) == ItemsIn(v, d, t, dir)
    ensures EntriesOk(v, e, t) && RefsUnique(v, e, t)
  {
    hide DirItems, EntryOk;
  }

  lemma {:induction false} SameFind(v: Volume, d: Image, e: Image, t: Tree, touched: set<nat>, path: Path)
    requires WellFormed(v, d, t) && Agree(v, d, e, touched) && Untouched(t, touched)
    ensures v.Holds(e) && Find(v, e, path) == Find(v, d, path)
  {
    hide WellFormed, Agree, Untouched, DirItems;
    SameTree(v, d, e, t, touched);
    TreeHolds(v, e, t);
    TreeHolds(v, d, t);
    if path != [] {
      SameFind(v, d, e, t, touched, path[..|path| - 1]);
      var parent := Find(v, d, path[..|path| - 1]);
      if parent.Some? && parent.value.directory {
        FindOk(v, d, t, path[..|path| - 1]);
        TreeDirs(v, d, t);
        ListDirIs(v, d, t, parent.value.cluster);
        ListDirIs(v, e, t, parent.value.cluster);
      }
    }
  }

  lemma TreeHolds(v: Volume, d: Image, t: Tree)
    requires WellFormed(v, d, t)
    ensures v.Holds(d)
  {
  }

  lemma TreeDirs(v: Volume, d: Image, t: Tree)
    requires WellFormed(v, d, t)
    ensures t.dirs <= t.chains.Keys && v.root in t.dirs
  {
  }

  lemma SameFile(v: Volume, d: Image, e: Image, t: Tree, touched: set<nat>, entry: Entry)
    requires WellFormed(v, d, t) && Agree(v, d, e, touched)
    requires !entry.directory && EntryOk(v, t, entry)
    requires entry.cluster != 0 ==> forall c | c in t.chains[entry.cluster] :: c !in touched
    ensures v.Holds(e) && FileBytes(v, e, entry, entry.size) == FileBytes(v, d, entry, entry.size)
  {
    hide Agree, EntriesOk, RefsUnique, Bytes, ChainOf, IsChain, ChainLbas;
    assert v.Holds(e) by {
      AgreeHolds(v, d, e, touched);
    }
    if entry.cluster != 0 {
      SameChain(v, d, e, entry.cluster, t.chains[entry.cluster], touched);
    }
  }

  lemma AgreeHolds(v: Volume, d: Image, e: Image, touched: set<nat>)
    requires v.Holds(d) && Agree(v, d, e, touched)
    ensures v.Holds(e)
  {
  }

  /** Any image that agrees with a well-formed one on its chains reads the
      same, at every path. */
  lemma SameContents(v: Volume, d: Image, e: Image, t: Tree, touched: set<nat>, path: Path)
    requires WellFormed(v, d, t) && Agree(v, d, e, touched) && Untouched(t, touched)
    ensures v.Holds(e) && Contents(v, e, path) == Contents(v, d, path)
  {
    hide WellFormed, Agree, FileBytes;
    SameFind(v, d, e, t, touched, path);
    TreeHolds(v, d, t);
    var entry := Find(v, d, path);
    FindOk(v, d, t, path);
    if entry.Some? && !entry.value.directory {
      FindFile(v, d, path);
      SameFile(v, d, e, t, touched, entry.value);
    }
  }

  lemma FindFile(v: Volume, d: Image, path: Path)
    requires v.Holds(d) && Find(v, d, path).Some? && !Find(v, d, path).value.directory
    ensures path != []
  {
  }

  // ---- One directory rewritten ------------------------------------------------------------------

  /** The entries of `after` are those of `before` with `mid` in place of the
      ones from `i` to `j`. */
  ghost predicate Spliced(before: seq<Item>, after: seq<Item>, i: nat, j: nat, mid: seq<Entry>) {
    && i <= j <= |before| && j <= i + 1 && |mid| <= 1
    && |after| == |before| - (j - i) + |mid|
    && (forall k | 0 <= k < |after| ::
          after[k].entry == if i <= k < i + |mid| then mid[k - i] else before[Origin(k, i, j, |mid|)].entry)
  }

  /** Where item `k` of the new list stood in the old one. */
  function Origin(k: nat, i: nat, j: nat, n: nat): nat
    requires i <= j
  {
    if k < i then k else if k < i + n then 0 else k - n + (j - i)
  }

  /** The chain an edit lets go of, and the one it takes up; 0 for none. */
  ghost function Gone(before: seq<Item>, i: nat, j: nat): nat
    requires i <= j <= |before|
  {
    if i < j then before[i].entry.cluster else 0
  }

  ghost function Born(mid: seq<Entry>): nat {
    if mid == [] then 0 else mid[0].cluster
  }

  /** The chains in use after an edit: those before, less the one let go, with
      the one taken up. */
  ghost predicate TreeStep(v: Volume, t: Tree, u: Tree, gone: nat, born: nat, folder: bool) {
    && (forall f | f in t.chains && f != gone && f != born :: f in u.chains && u.chains[f] == t.chains[f])
    && (forall f | f in u.chains && f != born :: f in t.chains && f != gone)
    && (born in t.chains ==> born == gone)
    && (born == 0 ==> 0 !in u.chains)
    && u.dirs == t.dirs - {gone} + (if folder then {born} else {})
    && u.dirs <= u.chains.Keys
    && gone != v.root
    && (forall f | f in u.chains && f != born && born in u.chains ::
          NoShare(u.chains[f], u.chains[born]) && NoShare(u.chains[born], u.chains[f]))
  }

  /** Everything an edit of directory `dir` must meet for the volume to stay
      well formed. */
  ghost predicate EditOk(v: Volume, d: Image, e: Image, t: Tree, u: Tree, dir: nat, i: nat, j: nat, mid: seq<Entry>)
    requires WellFormed(v, d, t) && v.Holds(e) && dir in t.dirs && dir in u.dirs && u.dirs <= u.chains.Keys
  {
    && Spliced(ItemsIn(v, d, t, dir), ItemsIn(v, e, u, dir), i, j, mid)
    && (var gone, born := Gone(ItemsIn(v, d, t, dir), i, j), Born(mid);
        && TreeStep(v, t, u, gone, born, mid != [] && mid[0].directory)
        && gone != dir && born != dir
        && (mid != [] ==> EntryOk(v, u, mid[0]))
        && (born in u.chains ==> u.chains[born] != [] && IsChain(v, e, born, u.chains[born]))
        && (born in u.dirs && (born !in t.dirs || u.chains[born] != t.chains[born]) ==> ItemsIn(v, e, u, born) == []))
  }

  /** `e` has the FAT of `d` and the data of every cluster outside `dir`'s chain. */
  ghost predicate OnlyDir(v: Volume, d: Image, e: Image, t: Tree, dir: nat)
    requires v.Holds(d) && dir in t.chains
  {
    && Agree(v, d, e, set c | c in t.chains[dir])
    && (forall c: nat | v.InRange(c) :: Fat(v, e, c) == Fat(v, d, c))
  }

  lemma OtherChain(v: Volume, d: Image, e: Image, t: Tree, dir: nat, f: nat)
    requires WellFormed(v, d, t) && dir in t.chains && f in t.chains && OnlyDir(v, d, e, t, dir)
    ensures v.Holds(e) && IsChain(v, e, f, t.chains[f]) && ChainOf(v, e, f) == Some(t.chains[f])
    ensures f != dir ==> ItemsIn(v, e, t, f) == ItemsIn(v, d, t, f)
  {
    hide EntriesOk, RefsUnique, DirItems, Fat;
    AgreeHolds(v, d, e, set c | c in t.chains[dir]);
    assert IsChain(v, d, f, t.chains[f]);
    ChainFrame(v, d, e, f, t.chains[f]);
    if f != dir {
      SameChain(v, d, e, f, t.chains[f], set c | c in t.chains[dir]);
    }
  }

  /** The items of the new tree's directories: the old ones, the edited ones,
      or none. */
  lemma EditItems(v: Volume, d: Image, e: Image, t: Tree, u: Tree, dir: nat, i: nat, j: nat, mid: seq<Entry>, a: nat)
    requires WellFormed(v, d, t) && v.Holds(e) && dir in t.dirs && dir in u.dirs && u.dirs <= u.chains.Keys
    requires OnlyDir(v, d, e, t, dir) && EditOk(v, d, e, t, u, dir, i, j, mid) && a in u.dirs && a != dir
    ensures ItemsIn(v, e, u, a) == [] || (a in t.dirs && ItemsIn(v, e, u, a) == ItemsIn(v, d, t, a))
  {
    hide WellFormed, DirItems, Spliced, OnlyDir, EntryOk, IsChain;
    TreeDirs(v, d, t);
    if ItemsIn(v, e, u, a) != [] {
      OtherChain(v, d, e, t, dir, a);
    }
  }

  /** An entry other than the one let go stays sound. */
  lemma EntryStays(v: Volume, t: Tree, u: Tree, gone: nat, born: nat, folder: bool, entry: Entry)
    requires TreeStep(v, t, u, gone, born, folder) && EntryOk(v, t, entry) && t.dirs <= t.chains.Keys
    requires entry.cluster != 0 ==> entry.cluster != gone
    requires 0 !in t.chains
    ensures EntryOk(v, u, entry)
  {
    hide ChainLbas;
  }

  lemma ZeroNoChain(v: Volume, d: Image, t: Tree)
    requires WellFormed(v, d, t)
    ensures 0 !in t.chains
  {
    if 0 in t.chains {
      NotZero(v, d, t, 0);
    }
  }

  lemma EditEntries(v: Volume, d: Image, e: Image, t: Tree, u: Tree, dir: nat, i: nat, j: nat, mid: seq<Entry>)
    requires WellFormed(v, d, t) && v.Holds(e) && dir in t.dirs && dir in u.dirs && u.dirs <= u.chains.Keys
    requires OnlyDir(v, d, e, t, dir) && EditOk(v, d, e, t, u, dir, i, j, mid)
    ensures EntriesOk(v, e, u)
  {
    hide DirItems, OnlyDir, EntryOk, ChainsOk, TreeStep, IsChain;
    var before := ItemsIn(v, d, t, dir);
    var gone, born := Gone(before, i, j), Born(mid);
    ZeroNoChain(v, d, t);
    forall a, k | a in u.dirs && 0 <= k < |ItemsIn(v, e, u, a)|
      ensures EntryOk(v, u, ItemsIn(v, e, u, a)[k].entry)
    {
      if a == dir {
        if !(i <= k < i + |mid|) {
          var o := Origin(k, i, j, |mid|);
          assert EntryOk(v, t, before[o].entry);
          assert before[o].entry.cluster != 0 && i < j ==> before[o].entry.cluster != before[i].entry.cluster;
          EntryStays(v, t, u, gone, born, mid != [] && mid[0].directory, before[o].entry);
        }
      } else {
        EditItems(v, d, e, t, u, dir, i, j, mid, a);
        var entry := ItemsIn(v, d, t, a)[k].entry;
        assert EntryOk(v, t, entry);
        assert entry.cluster != 0 && i < j ==> entry.cluster != before[i].entry.cluster;
        EntryStays(v, t, u, gone, born, mid != [] && mid[0].directory, entry);
      }
    }
  }

  /** The old place of an item of the new tree: None for the new entry. */
  ghost predicate CameFrom(v: Volume, d: Image, t: Tree, e: Image, u: Tree, a: nat, k: nat, o: nat)
    requires v.Holds(d) && v.Holds(e) && t.dirs <= t.chains.Keys && u.dirs <= u.chains.Keys
    requires a in u.dirs && k < |ItemsIn(v, e, u, a)|
  {
    a in t.dirs && o < |ItemsIn(v, d, t, a)| && ItemsIn(v, d, t, a)[o].entry == ItemsIn(v, e, u, a)[k].entry
  }

  lemma OldPlace(v: Volume, d: Image, e: Image, t: Tree, u: Tree, dir: nat, i: nat, j: nat, mid: seq<Entry>, a: nat,
      k: nat)
    requires WellFormed(v, d, t) && v.Holds(e) && dir in t.dirs && dir in u.dirs && u.dirs <= u.chains.Keys
    requires OnlyDir(v, d, e, t, dir) && EditOk(v, d, e, t, u, dir, i, j, mid)
    requires a in u.dirs && k < |ItemsIn(v, e, u, a)| && !(a == dir && i <= k < i + |mid|)
    ensures CameFrom(v, d, t, e, u, a, k, if a == dir then Origin(k, i, j, |mid|) else k)
    ensures var o := if a == dir then Origin(k, i, j, |mid|) else k;
            ItemsIn(v, e, u, a)[k].entry.cluster != 0 && i < j ==> !(a == dir && o == i)
  {
    hide DirItems, OnlyDir, EntryOk, ChainsOk, TreeStep, IsChain, RefsUnique;
    if a != dir {
      EditItems(v, d, e, t, u, dir, i, j, mid, a);
    }
  }

  lemma EditUnique(v: Volume, d: Image, e: Image, t: Tree, u: Tree, dir: nat, i: nat, j: nat, mid: seq<Entry>)
    requires WellFormed(v, d, t) && v.Holds(e) && dir in t.dirs && dir in u.dirs && u.dirs <= u.chains.Keys
    requires OnlyDir(v, d, e, t, dir) && EditOk(v, d, e, t, u, dir, i, j, mid)
    ensures RefsUnique(v, e, u)
  {
    hide DirItems, OnlyDir, ChainsOk, IsChain, ChainLbas;
    forall a, k, b, l | a in u.dirs && 0 <= k < |ItemsIn(v, e, u, a)| && b in u.dirs && 0 <= l < |ItemsIn(v, e, u, b)|
                        && ItemsIn(v, e, u, a)[k].entry.cluster == ItemsIn(v, e, u, b)[l].entry.cluster != 0
      ensures a == b && k == l
    {
      var newA := a == dir && i <= k < i + |mid|;
      var newB := b == dir && i <= l < i + |mid|;
      if !newA {
        OldPlace(v, d, e, t, u, dir, i, j, mid, a, k);
      }
      if !newB {
        OldPlace(v, d, e, t, u, dir, i, j, mid, b, l);
      }
      if newA && !newB {
        NewIsNew(v, d, e, t, u, dir, i, j, mid, b, l);
      }
      if newB && !newA {
        NewIsNew(v, d, e, t, u, dir, i, j, mid, a, k);
      }
    }
  }

  /** No old item leads to the chain an edit takes up. */
  lemma NewIsNew(v: Volume, d: Image, e: Image, t: Tree, u: Tree, dir: nat, i: nat, j: nat, mid: seq<Entry>, a: nat,
      k: nat)
    requires WellFormed(v, d, t) && v.Holds(e) && dir in t.dirs && dir in u.dirs && u.dirs <= u.chains.Keys
    requires OnlyDir(v, d, e, t, dir) && EditOk(v, d, e, t, u, dir, i, j, mid)
    requires a in u.dirs && k < |ItemsIn(v, e, u, a)| && !(a == dir && i <= k < i + |mid|) && mid != []
    requires mid[0].cluster != 0
    ensures ItemsIn(v, e, u, a)[k].entry.cluster != mid[0].cluster
  {
    hide DirItems, OnlyDir, ChainsOk, IsChain, ChainLbas;
    OldPlace(v, d, e, t, u, dir, i, j, mid, a, k);
    var o := if a == dir then Origin(k, i, j, |mid|) else k;
    assert EntryOk(v, t, ItemsIn(v, d, t, a)[o].entry);
    var before := ItemsIn(v, d, t, dir);
    var entry := ItemsIn(v, d, t, a)[o].entry;
    assert i < j && entry.cluster != 0 && before[i].entry.cluster == entry.cluster ==> a == dir && o == i;
  }

  /** An edit of one directory keeps the volume well formed, with its chains
      stepped accordingly. */
  lemma EditTree(v: Volume, d: Image, e: Image, t: Tree, u: Tree, dir: nat, i: nat, j: nat, mid: seq<Entry>)
    requires WellFormed(v, d, t) && v.Holds(e) && dir in t.dirs && dir in u.dirs && u.dirs <= u.chains.Keys
    requires OnlyDir(v, d, e, t, dir) && EditOk(v, d, e, t, u, dir, i, j, mid)
    ensures WellFormed(v, e, u)
  {
    hide DirItems, EntryOk, OnlyDir, EntriesOk, RefsUnique, NoShare, IsChain, ChainOf;
    var gone, born := Gone(ItemsIn(v, d, t, dir), i, j), Born(mid);
    forall f | f in u.chains
      ensures u.chains[f] != [] && IsChain(v, e, f, u.chains[f])
    {
      if f != born {
        OtherChain(v, d, e, t, dir, f);
      }
    }
    forall f, g | f in u.chains && g in u.chains && f != g
      ensures NoShare(u.chains[f], u.chains[g])
    {
      if f != born && g != born {
        assert NoShare(t.chains[f], t.chains[g]);
      }
    }
    EditEntries(v, d, e, t, u, dir, i, j, mid);
    EditUnique(v, d, e, t, u, dir, i, j, mid);
  }
}
