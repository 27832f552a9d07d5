/** `overwrite` on a well-formed volume: it writes the file's own sectors and no
    others, and no other path reads differently, at any point. */
module FatOverwrite {
  import opened Base
  import opened Blocks
  import opened FatLayout
  import opened FatChain
  import opened FatData
  import opened FatDirectory
  import opened FatTree
  import opened FatFrame
  import opened FatTables
  import opened FatSlots
  import opened FatGrow
  import opened FatPrepare
  import opened FatWrite

  /** Two paths that lead to one file's clusters are the same path, up to case. */
  lemma FilePathUnique(v: Volume, d: Image, t: Tree, p: Path, q: Path)
    requires WellFormed(v, d, t) && p != [] && q != [] && Find(v, d, p).Some? && Find(v, d, q).Some?
    requires Find(v, d, p).value.cluster == Find(v, d, q).value.cluster != 0
    ensures SamePath(v, p, q)
  {
    hide DirItems, ChainsOk, EntriesOk, RefsUnique, Find;
    var a, i := FoundAt(v, d, t, p);
    var b, j := FoundAt(v, d, t, q);
    RefOne(v, d, t, a, i, b, j);
    PathUnique(v, d, t, p[..|p| - 1], q[..|q| - 1]);
    SamePathStep(v, p, q);
  }

  /** The same FATs, and the same data outside one file's chain. */
  ghost predicate OnlyFile(v: Volume, d: Image, e: Image, t: Tree, f: nat)
    requires v.Holds(d)
  {
    SameHead(v, d, e) && Agree(v, d, e, Elements(ChainAt(t, f)))
  }

  lemma OnlyFileTree(v: Volume, d: Image, e: Image, t: Tree, path: Path, q: Path)
    requires WellFormed(v, d, t) && v.Holds(d) && Find(v, d, path).Some? && !Find(v, d, path).value.directory
    requires OnlyFile(v, d, e, t, Find(v, d, path).value.cluster)
    ensures v.Holds(e) && WellFormed(v, e, t)
    ensures Find(v, e, q) == Find(v, d, q)
    ensures !SamePath(v, q, path) ==> Contents(v, e, q) == Contents(v, d, q)
  {
    hide EntriesOk, RefsUnique, Agree, SameHead, NoShare, DirItems, IsChain, SamePath, FileBytes, EntryOk;
    var f := Find(v, d, path).value.cluster;
    FindFile(v, d, path);
    FindOk(v, d, t, path);
    AgreeHolds(v, d, e, Elements(ChainAt(t, f)));
    forall g | g in t.chains
      ensures IsChain(v, e, g, t.chains[g]) && ChainOf(v, e, g) == Some(t.chains[g])
      ensures g in t.dirs ==> ItemsIn(v, e, t, g) == ItemsIn(v, d, t, g) && ListDir(v, e, g) == ListDir(v, d, g)
    {
      HeadChain(v, d, e, t, g);
      ListDirIs(v, d, t, g);
      if g in t.dirs {
        FileApart(v, d, t, Find(v, d, path).value, g);
        SameData(v, d, e, t.chains[g], Elements(ChainAt(t, f)));
      }
    }
    DirRefs(v, d, e, t);
    SameListsFind(v, d, e, t, q);
    if !SamePath(v, q, path) {
      OtherFile(v, d, e, t, path, q);
    }
  }

  lemma DirRefs(v: Volume, d: Image, e: Image, t: Tree)
    requires v.Holds(d) && v.Holds(e) && t.dirs <= t.chains.Keys && EntriesOk(v, d, t) && RefsUnique(v, d, t)
    requires forall dir | dir in t.dirs :: ItemsIn(v, e, t, dir) == ItemsIn(v, d, t, dir)
    ensures EntriesOk(v, e, t) && RefsUnique(v, e, t)
  {
    hide DirItems, EntryOk;
  }

  lemma HeadChain(v: Volume, d: Image, e: Image, t: Tree, g: nat)
    requires WellFormed(v, d, t) && v.Holds(d) && v.Holds(e) && SameHead(v, d, e) && g in t.chains
    ensures IsChain(v, e, g, t.chains[g]) && ChainOf(v, e, g) == Some(t.chains[g])
  {
    hide EntriesOk, RefsUnique, Fat, SameHead;
    SameHeadFat(v, d, e);
    assert IsChain(v, d, g, t.chains[g]);
    ChainFrame(v, d, e, g, t.chains[g]);
  }

  /** A file's chain shares nothing with another chain. */
  lemma FileApart(v: Volume, d: Image, t: Tree, entry: Entry, g: nat)
    requires WellFormed(v, d, t) && EntryOk(v, t, entry) && !entry.directory && g in t.chains
    requires g in t.dirs || g != entry.cluster
    ensures forall c | c in t.chains[g] :: c !in Elements(ChainAt(t, entry.cluster))
  {
    hide EntriesOk, RefsUnique, IsChain, ChainLbas;
    ZeroNoChain(v, d, t);
    if entry.cluster in t.chains {
      assert NoShare(t.chains[g], t.chains[entry.cluster]);
    }
  }

  lemma OtherFile(v: Volume, d: Image, e: Image, t: Tree, path: Path, q: Path)
    requires WellFormed(v, d, t) && v.Holds(d) && v.Holds(e) && Find(v, d, path).Some?
    requires !Find(v, d, path).value.directory
    requires OnlyFile(v, d, e, t, Find(v, d, path).value.cluster) && !SamePath(v, q, path)
    ensures NodeAt(v, e, Find(v, d, q)) == NodeAt(v, d, Find(v, d, q))
  {
    hide WellFormed, Agree, SameHead, SamePath, FileBytes, Find, ChainLbas;
    var at := Find(v, d, q);
    FindOk(v, d, t, q);
    FindOk(v, d, t, path);
    FindFile(v, d, path);
    if at.Some? && !at.value.directory {
      FindFile(v, d, q);
      if at.value.cluster != 0 {
        if at.value.cluster == Find(v, d, path).value.cluster {
          FilePathUnique(v, d, t, q, path);
        }
        FileApart(v, d, t, Find(v, d, path).value, at.value.cluster);
      }
      SameFile(v, d, e, t, Elements(ChainAt(t, Find(v, d, path).value.cluster)), at.value);
    }
  }

  /** The first `k` writes of `overwrite`. */
  lemma OverwriteStep(v: Volume, d: Image, t: Tree, path: Path, data: seq<byte>, k: nat)
    requires WellFormed(v, d, t) && v.Holds(d) && Find(v, d, path).Some?
    requires OverwriteLog(v, d, Find(v, d, path).value, data).Some?
    requires k <= |OverwriteLog(v, d, Find(v, d, path).value, data).value|
    ensures var w := OverwriteLog(v, d, Find(v, d, path).value, data).value;
            OnlyFile(v, d, Replay(d, w[..k]), t, Find(v, d, path).value.cluster)
  {
    hide WellFormed, Find, ChainLbas, Padded, Owns, Replay, Agree, Needed, ChainOf;
    var entry := Find(v, d, path).value;
    OverwriteChain(v, d, t, path, data);
    var chain := ChainAt(t, entry.cluster)[..Needed(v, entry.size)];
    var lbas := ChainLbas(v, chain);
    var w := Puts(lbas, Padded(data, |lbas|));
    LbasInside(v, d, chain);
    forall i | 0 <= i < |w|
      ensures exists c: nat :: c in Elements(ChainAt(t, entry.cluster)) && Owns(v, c, w[i].lba)
    {
      var j := ChainOwner(v, chain, i);
      assert chain[j] in Elements(ChainAt(t, entry.cluster));
    }
    PutsAgree(v, d, w, Elements(ChainAt(t, entry.cluster)));
    forall s | 0 <= s < |d| && s < v.dataStart
      ensures Replay(d, w[..k])[s] == d[s]
    {
      ReplayUntouched(d, w[..k], s);
    }
  }

  lemma OverwriteChain(v: Volume, d: Image, t: Tree, path: Path, data: seq<byte>)
    requires WellFormed(v, d, t) && v.Holds(d) && Find(v, d, path).Some?
    requires OverwriteLog(v, d, Find(v, d, path).value, data).Some?
    ensures v.spc > 0
    ensures var entry := Find(v, d, path).value;
            var chain := ChainAt(t, entry.cluster);
            && !entry.directory && EntryOk(v, t, entry) && ChainOf(v, d, entry.cluster) == Some(chain)
                && v.AllIn(chain) && Distinct(chain)
            && Needed(v, entry.size) <= |chain| && |data| <= entry.size
            && var lbas := ChainLbas(v, chain[..Needed(v, entry.size)]);
               OverwriteLog(v, d, entry, data).value == Puts(lbas, Padded(data, |lbas|))
  {
    hide WellFormed, Find, ChainLbas, Padded, Needed, SameHead, Fat;
    var entry := Find(v, d, path).value;
    FindFile(v, d, path);
    FindOk(v, d, t, path);
    assert SameHead(v, d, d) by {
      HeadSelf(v, d);
    }
    EntryChain(v, d, d, t, entry);
  }

  lemma HeadSelf(v: Volume, d: Image)
    ensures SameHead(v, d, d)
  {
  }

  /** Overwriting a file: at every point the volume is well formed, every path
      leads where it led and every other path reads as before; at the end the
      file is the data, then zeros up to its size. */
  lemma OverwriteKeeps(v: Volume, d: Image, t: Tree, path: Path, data: seq<byte>, k: nat, q: Path)
    requires WellFormed(v, d, t) && v.Holds(d) && Find(v, d, path).Some?
    requires OverwriteLog(v, d, Find(v, d, path).value, data).Some?
    requires k <= |OverwriteLog(v, d, Find(v, d, path).value, data).value|
    ensures var entry := Find(v, d, path).value;
            var w := OverwriteLog(v, d, entry, data).value;
            var e := Replay(d, w[..k]);
            && v.Holds(e) && WellFormed(v, e, t) && Find(v, e, q) == Find(v, d, q)
            && (!SamePath(v, q, path) ==> Contents(v, e, q) == Contents(v, d, q))
            && (k == |w| ==>
                  |data| <= entry.size && Contents(v, e, path) == Some(File(data + seq(entry.size - |data|, _ => 0))))
  {
    hide WellFormed, Find, SamePath, OnlyFile, OverwriteLog, Replay, FileBytes;
    var entry := Find(v, d, path).value;
    var w := OverwriteLog(v, d, entry, data).value;
    OverwriteStep(v, d, t, path, data, k);
    OverwriteChain(v, d, t, path, data);
    OnlyFileTree(v, d, Replay(d, w[..k]), t, path, q);
    if k == |w| {
      assert w[..k] == w;
      OnlyFileTree(v, d, Replay(d, w), t, path, path);
      OverwriteReads(v, d, t, path, data);
    }
  }

  lemma OverwriteReads(v: Volume, d: Image, t: Tree, path: Path, data: seq<byte>)
    requires WellFormed(v, d, t) && v.Holds(d) && Find(v, d, path).Some?
    requires OverwriteLog(v, d, Find(v, d, path).value, data).Some?
    ensures var entry := Find(v, d, path).value;
            var e := Replay(d, OverwriteLog(v, d, entry, data).value);
            && v.Holds(e) && |data| <= entry.size
            && FileBytes(v, e, entry, entry.size) == Some(data + seq(entry.size - |data|, _ => 0))
  {
    hide WellFormed, Find, ChainLbas, Replay, Padded, ChainOf, SameHead, GatherChain, Flat, Agree;
    var entry := Find(v, d, path).value;
    OverwriteChain(v, d, t, path, data);
    var chain, n := ChainAt(t, entry.cluster), Needed(v, entry.size);
    var front := chain[..n];
    assert v.AllIn(front) && Distinct(front);
    var lbas := ChainLbas(v, front);
    var e := Replay(d, Puts(lbas, Padded(data, |lbas|)));
    PutsHead(v, d, front, data);
    EntryChain(v, d, e, t, entry);
    NeededHolds(v, entry.size);
    ChainLbasLength(v, front);
    PaddedFlat(data, |lbas|);
    BytesFront(v, e, chain, n);
    if entry.size == 0 {
      assert data == [];
    } else {
      FrontReads(v, e, entry, chain, n, data);
    }
  }

  lemma BytesFront(v: Volume, d: Image, chain: seq<nat>, n: nat)
    requires v.Holds(d) && v.AllIn(chain) && n <= |chain|
    ensures v.AllIn(chain[..n]) && |Bytes(v, d, chain[..n])| == 512 * |ChainLbas(v, chain[..n])| <= |Bytes(v, d, chain)|
    ensures Bytes(v, d, chain)[..|Bytes(v, d, chain[..n])|] == Bytes(v, d, chain[..n])
  {
    hide ChainLbas, Flat;
    var front, back := chain[..n], chain[n..];
    assert chain == front + back;
    ChainLbasConcat(v, front, back);
    assert GatherChain(v, d, chain) == GatherChain(v, d, front) + GatherChain(v, d, back);
    FlatConcat(GatherChain(v, d, front), GatherChain(v, d, back));
  }

  lemma FrontReads(v: Volume, e: Image, entry: Entry, chain: seq<nat>, n: nat, data: seq<byte>)
    requires v.Holds(e) && v.AllIn(chain) && n <= |chain| && ChainOf(v, e, entry.cluster) == Some(chain)
    requires v.AllIn(chain[..n]) && |data| <= entry.size
    requires 0 < entry.size <= |Bytes(v, e, chain[..n])| <= |Bytes(v, e, chain)|
    requires Bytes(v, e, chain)[..|Bytes(v, e, chain[..n])|] == Bytes(v, e, chain[..n])
    requires Bytes(v, e, chain[..n]) == data + seq(|Bytes(v, e, chain[..n])| - |data|, _ => 0)
    ensures FileBytes(v, e, entry, entry.size) == Some(data + seq(entry.size - |data|, _ => 0))
  {
    hide Bytes, ChainOf;
    var bytes, all := Bytes(v, e, chain[..n]), Bytes(v, e, chain);
    assert all[..entry.size] == bytes[..entry.size] == data + seq(entry.size - |data|, _ => 0);
  }
}
