/** What a growth in the unsafe order leaves when it stops half-way: a volume
    that is not well formed, its directory leading to a free cluster. */
module FatTorn {
  import opened Base
  import opened Blocks
  import opened FatLayout
  import opened FatChain
  import opened FatData
  import opened FatTree
  import opened FatFrame
  import opened FatSwitch
  import opened FatAtomic

  /** A chain follows the links of another with the same start. */
  lemma {:induction false} SameStart(v: Volume, e: Image, chain: seq<nat>, other: seq<nat>, i: nat)
    requires v.Holds(e) && Linked(v, e, other) && other != [] && v.AllIn(chain) && i < |chain| && other[0] == chain[0]
    requires forall j | 0 <= j < |chain| - 1 :: Fat(v, e, chain[j]) == chain[j + 1]
    ensures i < |other| && other[i] == chain[i]
  {
    hide Fat;
    if i > 0 {
      SameStart(v, e, chain, other, i - 1);
      assert Fat(v, e, chain[i - 1]) == chain[i] && v.InRange(chain[i]);
      assert i - 1 < |other| - 1 ==> Fat(v, e, other[i - 1]) == other[i];
    }
  }

  /** No chain runs through `chain` into a free cluster. */
  lemma NoChain(v: Volume, e: Image, chain: seq<nat>, a: nat, other: seq<nat>)
    requires v.Holds(e) && v.AllIn(chain) && chain != [] && v.InRange(a)
    requires forall j | 0 <= j < |chain| - 1 :: Fat(v, e, chain[j]) == chain[j + 1]
    requires Fat(v, e, chain[|chain| - 1]) == a && Fat(v, e, a) == 0
    ensures !IsChain(v, e, chain[0], other)
  {
    hide Fat;
    if IsChain(v, e, chain[0], other) {
      assert v.InRange(chain[0]) && v.AllIn(chain + [a]);
      SameStart(v, e, chain + [a], other, |chain|);
      NoFree(v, e, other, |chain|);
    }
  }

  lemma NoFree(v: Volume, e: Image, chain: seq<nat>, i: nat)
    requires v.Holds(e) && Linked(v, e, chain) && i < |chain|
    ensures Fat(v, e, chain[i]) != 0
  {
    hide Fat;
    assert i < |chain| - 1 ==> Fat(v, e, chain[i]) == chain[i + 1] && v.InRange(chain[i + 1]);
  }

  /** Up to a directory, a path does not depend on the directory's own chain. */
  lemma {:induction false} FindAbove(v: Volume, d: Image, e: Image, t: Tree, dir: nat, parent: Path, touched: set<nat>,
      n: nat)
    requires WellFormed(v, d, t) && v.Holds(d) && LeadsTo(v, d, parent, dir) && Agree(v, d, e, touched) && n <= |parent|
    requires forall f, c | f in t.chains && f != dir && c in t.chains[f] :: c !in touched
    ensures v.Holds(e) && Find(v, e, parent[..n]) == Find(v, d, parent[..n])
  {
    hide WellFormed, Agree, DirItems, IsChain, Bytes;
    AgreeHolds(v, d, e, touched);
    if n > 0 {
      var up := parent[..n - 1];
      FindAbove(v, d, e, t, dir, parent, touched, n - 1);
      assert parent[..n][..n - 1] == up;
      var at := Find(v, d, up);
      if at.Some? && at.value.directory {
        FindOk(v, d, t, up);
        TreeDirs(v, d, t);
        NotDir(v, d, t, dir, parent, up);
        ListDirIs(v, d, t, at.value.cluster);
        ChainIs(v, d, t, at.value.cluster);
        SameChain(v, d, e, at.value.cluster, t.chains[at.value.cluster], touched);
      }
    }
  }

  lemma NotDir(v: Volume, d: Image, t: Tree, dir: nat, parent: Path, up: Path)
    requires WellFormed(v, d, t) && v.Holds(d) && LeadsTo(v, d, parent, dir)
    requires |up| < |parent| && Find(v, d, up).Some? && Find(v, d, up).value.directory
    ensures Find(v, d, up).value.cluster != dir
  {
    hide WellFormed, Find;
    if Find(v, d, up).value.cluster == dir {
      PathUnique(v, d, t, up, parent);
    }
  }

  lemma ChainIs(v: Volume, d: Image, t: Tree, f: nat)
    requires WellFormed(v, d, t) && v.Holds(d) && f in t.chains
    ensures IsChain(v, d, f, t.chains[f]) && t.chains[f] != [] && f == t.chains[f][0]
  {
    hide EntriesOk, RefsUnique;
  }

  /** The last cluster of a directory leads to a free one: no tree fits. */
  lemma Torn(v: Volume, d: Image, e: Image, t: Tree, dir: nat, parent: Path, a: nat)
    requires WellFormed(v, d, t) && v.Holds(d) && LeadsTo(v, d, parent, dir) && dir in t.chains && v.InRange(a)
    requires t.chains[dir] != []
    requires Fat(v, d, a) == 0
    requires var last := t.chains[dir][|t.chains[dir]| - 1];
             v.InRange(last) && Agree(v, d, e, {a, last}) && v.Holds(e) && Fat(v, e, last) == a && Fat(v, e, a) == 0
    ensures !Whole(v, e)
  {
    hide WellFormed, Agree, Find, Fat;
    var home := t.chains[dir];
    var last := home[|home| - 1];
    if Whole(v, e) {
      var u :| WellFormed(v, e, u);
      forall f, c | f in t.chains && f != dir && c in t.chains[f]
        ensures c !in {a, last}
      {
        OutOf(v, d, t, dir, f, a, c);
      }
      FindAbove(v, d, e, t, dir, parent, {a, last}, |parent|);
      assert parent[..|parent|] == parent;
      FindOk(v, e, u, parent);
      TreeDirs(v, e, u);
      ChainIs(v, e, u, dir);
      ChainIs(v, d, t, dir);
      HomeLinks(v, d, e, home, a);
      NoChain(v, e, home, a, u.chains[dir]);
    }
  }

  /** No other chain holds the free cluster, or the last of this one. */
  lemma OutOf(v: Volume, d: Image, t: Tree, dir: nat, f: nat, a: nat, c: nat)
    requires WellFormed(v, d, t) && v.Holds(d) && dir in t.chains && f in t.chains && f != dir && t.chains[dir] != []
    requires c in t.chains[f]
    requires v.InRange(a) && Fat(v, d, a) == 0
    ensures c != a && c != t.chains[dir][|t.chains[dir]| - 1]
  {
    hide EntriesOk, RefsUnique, Fat, IsChain;
    assert Owned(t, c);
    OwnedNotFree(v, d, t, c);
    assert NoShare(t.chains[f], t.chains[dir]) && t.chains[dir][|t.chains[dir]| - 1] in t.chains[dir];
  }

  lemma HomeLinks(v: Volume, d: Image, e: Image, home: seq<nat>, a: nat)
    requires v.Holds(d) && v.Holds(e) && Linked(v, d, home) && home != [] && v.InRange(a) && Fat(v, d, a) == 0
    requires Agree(v, d, e, {a, home[|home| - 1]})
    ensures v.AllIn(home) && forall j | 0 <= j < |home| - 1 :: Fat(v, e, home[j]) == home[j + 1]
  {
    hide Fat, Owns;
    ChainDistinct(v, d, home);
    forall j | 0 <= j < |home| - 1
      ensures Fat(v, e, home[j]) == home[j + 1]
    {
      NoFree(v, d, home, j);
      assert home[j] != home[|home| - 1] && Fat(v, d, home[j]) == home[j + 1];
    }
  }
}
