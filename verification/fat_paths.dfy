/** What every path reads after one name of one directory changed hands. */
module FatPaths {
  import opened Base
  import opened Blocks
  import opened FatLayout
  import opened FatData
  import opened FatDirectory
  import opened FatTree
  import opened FatFrame

  /** `path` goes through the entry `target` names. */
  ghost predicate Below(v: Volume, path: Path, target: Path) {
    |path| > |target| && SamePath(v, path[..|target|], target)
  }

  lemma SameUp(v: Volume, p: Path, q: Path)
    requires SamePath(v, p, q) && p != []
    ensures q != [] && SamePath(v, p[..|p| - 1], q[..|q| - 1]) && v.SameName(p[|p| - 1], q[|q| - 1])
  {
  }

  lemma SameDown(v: Volume, p: Path, q: Path, a: Name, b: Name)
    requires SamePath(v, p, q) && v.SameName(a, b)
    ensures SamePath(v, p + [a], q + [b])
  {
  }

  lemma BelowUp(v: Volume, path: Path, target: Path)
    requires path != []
    ensures Below(v, path, target) ==> var up := path[..|path| - 1]; SamePath(v, up, target) || Below(v, up, target)
  {
    var up := path[..|path| - 1];
    assert |path| > |target| ==> path[..|target|] == up[..|target|];
    assert up[..|up|] == up;
  }

  /** Paths equal up to case lead to the same entry. */
  lemma {:induction false} FindSame(v: Volume, d: Image, p: Path, q: Path)
    requires v.Holds(d) && SamePath(v, p, q)
    ensures Find(v, d, p) == Find(v, d, q)
  {
    hide ListDir;
    if p != [] {
      SameUp(v, p, q);
      FindSame(v, d, p[..|p| - 1], q[..|q| - 1]);
      EnterSame(v, d, Find(v, d, p[..|p| - 1]), p[|p| - 1], q[|q| - 1]);
    }
  }

  lemma EnterSame(v: Volume, d: Image, at: Option<Entry>, a: Name, b: Name)
    requires v.Holds(d) && v.SameName(a, b)
    ensures Enter(v, d, at, a) == Enter(v, d, at, b)
  {
    hide ListDir;
    if at.Some? && at.value.directory && ListDir(v, d, at.value.cluster).Some? {
      LookupSame(v, ListDir(v, d, at.value.cluster).value, a, b);
    }
  }

  lemma {:induction false} LookupSame(v: Volume, items: seq<Item>, a: Name, b: Name)
    requires v.SameName(a, b)
    ensures Lookup(v, items, a) == Lookup(v, items, b)
  {
    if items != [] {
      LookupSame(v, items[1..], a, b);
    }
  }

  /** Nothing can be below this entry: there is none, or it is a file or an
      empty directory. */
  ghost predicate Childless(v: Volume, d: Image, at: Option<Entry>)
    requires v.Holds(d)
  {
    at.Some? && at.value.directory ==> ListDir(v, d, at.value.cluster) == Some([])
  }

  /** In directory `dir`, at path `parent`, the entry called `name` became
      `made` (None when it was removed); every other name of it, and every other
      directory, reads as before. Nothing was below it, and nothing is. */
  ghost predicate Renamed(v: Volume, d: Image, e: Image, t: Tree, parent: Path, name: Name, made: Option<Entry>)
    requires WellFormed(v, d, t)
  {
    && v.Holds(e)
    && Find(v, d, parent).Some? && Find(v, d, parent).value.directory
    && (var dir := Find(v, d, parent).value.cluster;
        && dir in t.dirs
        && (forall g | g in t.dirs && g != dir :: ListDir(v, e, g) == ListDir(v, d, g))
        && ListDir(v, d, dir).Some? && ListDir(v, e, dir).Some?
        && (var before, after := ListDir(v, d, dir).value, ListDir(v, e, dir).value;
            && (forall n: Name | !v.SameName(n, name) :: LookupEntry(v, after, n) == LookupEntry(v, before, n))
            && LookupEntry(v, after, name) == made
            && Childless(v, d, LookupEntry(v, before, name))))
    && Childless(v, e, made)
  }

  ghost function FindAfter(v: Volume, d: Image, target: Path, made: Option<Entry>, path: Path): Option<Entry>
    requires v.Holds(d)
  {
    if SamePath(v, path, target) then made
    else if Below(v, path, target) then None
    else Find(v, d, path)
  }

  /** Before the change, nothing was below the target. */
  lemma {:induction false} NothingBelow(v: Volume, d: Image, e: Image, t: Tree, parent: Path, name: Name,
      made: Option<Entry>, path: Path)
    requires WellFormed(v, d, t) && Renamed(v, d, e, t, parent, name, made)
    requires Below(v, path, parent + [name])
    ensures Find(v, d, path) == None
  {
    hide WellFormed, ListDir;
    TreeHolds(v, d, t);
    var target := parent + [name];
    var up := path[..|path| - 1];
    assert path[..|target|] == up[..|target|];
    if |up| == |target| {
      assert up == path[..|target|];
      FindSame(v, d, up, target);
      assert target[..|target| - 1] == parent;
    } else {
      NothingBelow(v, d, e, t, parent, name, made, up);
    }
  }

  lemma {:induction false} FindRenamed(v: Volume, d: Image, e: Image, t: Tree, parent: Path, name: Name,
      made: Option<Entry>, path: Path)
    requires WellFormed(v, d, t) && Renamed(v, d, e, t, parent, name, made)
    ensures v.Holds(e) && Find(v, e, path) == FindAfter(v, d, parent + [name], made, path)
  {
    hide WellFormed, ListDir, Renamed;
    TreeHolds(v, d, t);
    RenamedHolds(v, d, e, t, parent, name, made);
    var target := parent + [name];
    if path != [] {
      var up, last := path[..|path| - 1], path[|path| - 1];
      assert path == up + [last] && target[..|target| - 1] == parent;
      FindRenamed(v, d, e, t, parent, name, made, up);
      if SamePath(v, up, target) {
        assert path[..|target|] == up;
        RenamedEnd(v, d, e, t, parent, name, made, last);
      } else if Below(v, up, target) {
        assert path[..|target|] == up[..|target|];
      } else {
        BelowUp(v, path, target);
        RenamedStep(v, d, e, t, parent, name, made, up, last);
      }
    }
  }

  lemma RenamedHolds(v: Volume, d: Image, e: Image, t: Tree, parent: Path, name: Name, made: Option<Entry>)
    requires WellFormed(v, d, t) && Renamed(v, d, e, t, parent, name, made)
    ensures v.Holds(d) && v.Holds(e)
  {
    hide ListDir, EntriesOk, RefsUnique, ChainsOk;
  }

  /** Nothing is below the new entry. */
  lemma RenamedEnd(v: Volume, d: Image, e: Image, t: Tree, parent: Path, name: Name, made: Option<Entry>, last: Name)
    requires WellFormed(v, d, t) && Renamed(v, d, e, t, parent, name, made)
    ensures v.Holds(e) && Enter(v, e, made, last) == None
  {
    hide ListDir, EntriesOk, RefsUnique, ChainsOk;
  }

  /** One part taken, where the path so far did not go through the target. */
  lemma RenamedStep(v: Volume, d: Image, e: Image, t: Tree, parent: Path, name: Name, made: Option<Entry>, up: Path,
      last: Name)
    requires WellFormed(v, d, t) && Renamed(v, d, e, t, parent, name, made)
    ensures v.Holds(d) && v.Holds(e)
    ensures Enter(v, e, Find(v, d, up), last) ==
            if SamePath(v, up + [last], parent + [name]) then made else Enter(v, d, Find(v, d, up), last)
  {
    hide ListDir, EntriesOk, RefsUnique, ChainsOk, SamePath, Find;
    var at, home := Find(v, d, up), Find(v, d, parent).value;
    FindOk(v, d, t, up);
    var target := parent + [name];
    if SamePath(v, up + [last], target) {
      SameUp(v, up + [last], target);
      assert (up + [last])[..|up + [last]| - 1] == up && target[..|target| - 1] == parent;
      FindSame(v, d, up, parent);
      EnterSame(v, e, at, last, name);
    } else if at.Some? && at.value.directory && at.value.cluster == home.cluster {
      PathUnique(v, d, t, up, parent);
      if v.SameName(last, name) {
        SameDown(v, up, parent, last, name);
      }
    }
  }

  // ---- Names looked up --------------------------------------------------------------------------

  /** A new item under a name no item had answers to that name, and only that. */
  lemma {:induction false} LookupInserted(v: Volume, before: seq<Item>, after: seq<Item>, at: nat, item: Item, n: Name)
    requires Inserted(before, after, at, [item])
    requires forall i | 0 <= i < |before| :: !v.SameName(before[i].name, item.name)
    ensures LookupEntry(v, after, n) == if v.SameName(n, item.name) then Some(item.entry) else LookupEntry(v, before, n)
  {
    assert after[at] == item;
    forall i | 0 <= i < |after|
      ensures i < at ==> after[i] == before[i]
      ensures i > at ==> after[i] == before[i - 1]
    {
      if i > at {
        assert after[i] == before[at..][i - 1 - at];
      }
    }
    if v.SameName(n, item.name) {
      assert Lookup(v, after, n) == Some(at);
    } else {
      LookupMoved(v, before, after, at, n);
    }
  }

  lemma LookupMoved(v: Volume, before: seq<Item>, after: seq<Item>, at: nat, n: Name)
    requires at < |after| == |before| + 1 && !v.SameName(after[at].name, n)
    requires forall i | 0 <= i < at :: after[i] == before[i]
    requires forall i | at < i < |after| :: after[i] == before[i - 1]
    ensures LookupEntry(v, after, n) == LookupEntry(v, before, n)
  {
    var a, b := Lookup(v, before, n), Lookup(v, after, n);
    if a.Some? {
      var k := if a.value < at then a.value else a.value + 1;
      assert after[k] == before[a.value];
      assert b.Some?;
      assert b.value <= k;
      if b.value < at {
        assert before[b.value] == after[b.value];
      } else {
        assert before[b.value - 1] == after[b.value];
      }
    } else {
      forall k | 0 <= k < |after|
        ensures !v.SameName(after[k].name, n)
      {
        assert k < at ==> after[k] == before[k];
        assert k > at ==> after[k] == before[k - 1];
      }
    }
  }

  /** Items that kept their names answer as before, those with the same entry
      with the same entry. */
  lemma {:induction false} LookupRenewed(v: Volume, before: seq<Item>, after: seq<Item>, n: Name)
    requires |before| == |after| && forall i | 0 <= i < |before| :: after[i].name == before[i].name
    ensures Lookup(v, after, n) == Lookup(v, before, n)
  {
    if before != [] {
      LookupRenewed(v, before[1..], after[1..], n);
    }
  }
}
