/** Which paths a deletion stopped half-way can show differently: those through
    the name that is going, and those through the name it is left with. */
module FatAside {
  import opened Base
  import opened Blocks
  import opened FatLayout
  import opened FatDirectory
  import opened FatTree
  import opened FatFrame
  import opened FatPaths
  import opened FatAtomic
  import opened FatDelete
  import opened FatSwitch

  /** `path` is `target`, or goes through it. */
  ghost predicate Through(v: Volume, path: Path, target: Path) {
    |path| >= |target| && SamePath(v, path[..|target|], target)
  }

  /** Paths through neither of two names of a directory read as before. */
  ghost predicate Spared(v: Volume, d: Image, e: Image, parent: Path, a: Name, b: Name)
    requires v.Holds(d)
  {
    v.Holds(e) && forall path | !Through(v, path, parent + [a])
        && !Through(v, path, parent + [b]) :: Contents(v, e, path) == Contents(v, d, path)
  }

  /** In the directory at `parent`, only two names answer otherwise; every other
      directory lists the same. */
  ghost predicate Relabelled(v: Volume, d: Image, e: Image, t: Tree, parent: Path, a: Name, b: Name)
    requires WellFormed(v, d, t)
  {
    && v.Holds(e)
    && Find(v, d, parent).Some? && Find(v, d, parent).value.directory
    && var dir := Find(v, d, parent).value.cluster;
       && dir in t.dirs
       && (forall g | g in t.dirs && g != dir :: ListDir(v, e, g) == ListDir(v, d, g))
       && ListDir(v, d, dir).Some? && ListDir(v, e, dir).Some?
       && forall n: Name | !v.SameName(n, a) && !v.SameName(n, b) ::
            LookupEntry(v, ListDir(v, e, dir).value, n) == LookupEntry(v, ListDir(v, d, dir).value, n)
  }

  lemma NotThrough(v: Volume, up: Path, last: Name, target: Path)
    requires !Through(v, up + [last], target)
    ensures !Through(v, up, target)
  {
    if |up| >= |target| {
      assert (up + [last])[..|target|] == up[..|target|];
    }
  }

  lemma LastThrough(v: Volume, up: Path, last: Name, parent: Path, a: Name)
    requires SamePath(v, up, parent) && v.SameName(last, a)
    ensures Through(v, up + [last], parent + [a])
  {
    SameDown(v, up, parent, last, a);
    assert (up + [last])[..|parent + [a]|] == up + [last];
  }

  lemma {:induction false} FindAside(v: Volume, d: Image, e: Image, t: Tree, parent: Path, a: Name, b: Name, path: Path)
    requires WellFormed(v, d, t) && Relabelled(v, d, e, t, parent, a, b)
    requires !Through(v, path, parent + [a]) && !Through(v, path, parent + [b])
    ensures v.Holds(d) && v.Holds(e) && Find(v, e, path) == Find(v, d, path)
  {
    hide WellFormed, ListDir, Through, Relabelled;
    TreeHolds(v, d, t);
    RelabelledHolds(v, d, e, t, parent, a, b);
    if path != [] {
      var up, last := path[..|path| - 1], path[|path| - 1];
      assert path == up + [last];
      NotThrough(v, up, last, parent + [a]);
      NotThrough(v, up, last, parent + [b]);
      FindAside(v, d, e, t, parent, a, b, up);
      EnterAside(v, d, e, t, parent, a, b, up, last);
    }
  }

  lemma RelabelledHolds(v: Volume, d: Image, e: Image, t: Tree, parent: Path, a: Name, b: Name)
    requires WellFormed(v, d, t) && Relabelled(v, d, e, t, parent, a, b)
    ensures v.Holds(d) && v.Holds(e)
  {
    hide ListDir, EntriesOk, RefsUnique, ChainsOk;
  }

  lemma EnterAside(v: Volume, d: Image, e: Image, t: Tree, parent: Path, a: Name, b: Name, up: Path, last: Name)
    requires WellFormed(v, d, t) && Relabelled(v, d, e, t, parent, a, b)
    requires !Through(v, up + [last], parent + [a]) && !Through(v, up + [last], parent + [b])
    ensures v.Holds(d) && v.Holds(e) && Enter(v, e, Find(v, d, up), last) == Enter(v, d, Find(v, d, up), last)
  {
    hide ListDir, EntriesOk, RefsUnique, ChainsOk, SamePath, Find, Through;
    var at, home := Find(v, d, up), Find(v, d, parent).value;
    FindOk(v, d, t, up);
    if at.Some? && at.value.directory && at.value.cluster == home.cluster {
      PathUnique(v, d, t, up, parent);
      if v.SameName(last, a) {
        LastThrough(v, up, last, parent, a);
      }
      if v.SameName(last, b) {
        LastThrough(v, up, last, parent, b);
      }
    }
  }

  /** One item under another name: only the two names answer otherwise. */
  lemma LookupLeft(v: Volume, before: seq<Item>, after: seq<Item>, i: nat, n: Name)
    requires Left(before, after, i) && !v.SameName(n, before[i].name) && !v.SameName(n, after[i].name)
    ensures LookupEntry(v, after, n) == LookupEntry(v, before, n)
  {
    var x, y := Lookup(v, before, n), Lookup(v, after, n);
    if x.Some? {
      assert after[x.value] == before[x.value];
      assert y.Some? && y.value <= x.value;
    }
    if y.Some? {
      assert before[y.value] == after[y.value];
      assert x.Some? && x.value <= y.value;
    }
  }

  /** What is left of a directory in the middle of a deletion spares all other
      paths. */
  lemma LeftSpares(v: Volume, d: Image, e: Image, t: Tree, dir: nat, parent: Path, i: nat) returns (other: Name)
    requires WellFormed(v, d, t) && v.Holds(d) && v.Holds(e) && dir in t.dirs && dir in t.chains
    requires LeadsTo(v, d, parent, dir)
    requires OnlyDir(v, d, e, t, dir) && i < |ItemsIn(v, d, t, dir)|
    requires var before, after := ItemsIn(v, d, t, dir), ItemsIn(v, e, t, dir);
             Inserted(after, before, i, [before[i]]) || Left(before, after, i)
    ensures Spared(v, d, e, parent, ItemsIn(v, d, t, dir)[i].name, other)
  {
    hide WellFormed, DirItems, OnlyDir, Lookup, Find, ListDir, Inserted, Left, Through;
    var before, after := ItemsIn(v, d, t, dir), ItemsIn(v, e, t, dir);
    var name := before[i].name;
    other := if Left(before, after, i) then LeftName(before, after, i) else name;
    TreeDirs(v, d, t);
    forall g | g in t.dirs
      ensures ListDir(v, e, g) == Some(ItemsIn(v, e, t, g)) && ListDir(v, d, g) == Some(ItemsIn(v, d, t, g))
      ensures g != dir ==> ListDir(v, e, g) == ListDir(v, d, g)
    {
      OtherChain(v, d, e, t, dir, g);
      ListDirIs(v, d, t, g);
      ListedAs(v, e, t, g);
    }
    forall n: Name | !v.SameName(n, name) && !v.SameName(n, other)
      ensures LookupEntry(v, after, n) == LookupEntry(v, before, n)
    {
      if Left(before, after, i) {
        LookupLeft(v, before, after, i, n);
      } else {
        Taken(before, after, i);
        LookupMoved(v, after, before, i, n);
      }
    }
    forall path | !Through(v, path, parent + [name]) && !Through(v, path, parent + [other])
      ensures Contents(v, e, path) == Contents(v, d, path)
    {
      FindAside(v, d, e, t, parent, name, other, path);
      SameNode(v, d, e, t, dir, path);
    }
  }

  ghost function LeftName(before: seq<Item>, after: seq<Item>, i: nat): (r: Name)
    requires Left(before, after, i)
    ensures r == after[i].name
  {
    after[i].name
  }

  lemma Taken(before: seq<Item>, after: seq<Item>, i: nat)
    requires i < |before| && Inserted(after, before, i, [before[i]])
    ensures |after| + 1 == |before|
    ensures forall k | 0 <= k < i :: before[k] == after[k]
    ensures forall k | i < k < |before| :: before[k] == after[k - 1]
  {
    forall k | i < k < |before|
      ensures before[k] == after[k - 1]
    {
      assert before[k] == after[i..][k - 1 - i];
    }
  }

  lemma ThroughAs(v: Volume, path: Path, parent: Path, a: Name, b: Name)
    requires v.SameName(a, b)
    ensures Through(v, path, parent + [a]) <==> Through(v, path, parent + [b])
  {
    if |path| >= |parent| + 1 {
      var front := path[..|parent| + 1];
      assert SamePath(v, front, parent + [a]) ==> v.SameName(front[|parent|], (parent + [a])[|parent|]);
    }
  }

  /** Sparing the paths around one name is sparing them around the same name up to
      case, and images that read alike spare alike. */
  lemma SparedAs(v: Volume, d: Image, e: Image, f: Image, parent: Path, a: Name, name: Name, b: Name)
    requires v.Holds(d) && Spared(v, d, e, parent, a, b) && v.SameName(a, name)
    requires v.Holds(f) && forall path :: Contents(v, f, path) == Contents(v, e, path)
    ensures Spared(v, d, f, parent, name, b)
  {
    hide Contents;
    forall path | !Through(v, path, parent + [name])
      ensures !Through(v, path, parent + [a])
    {
      ThroughAs(v, path, parent, a, name);
    }
  }
}
