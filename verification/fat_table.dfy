/** The FAT as `FatTable` caches, changes and writes it back: allocation,
    freeing, and FSInfo's count of free clusters. */
module FatTables {
  import opened Base
  import opened Blocks
  import opened FatLayout

  datatype Cached = Cached(index: nat, bytes: Sector, dirty: bool)

  /** A FAT word given a new entry, its four reserved high bits kept. */
  function Edit(word: nat, value: nat): (r: nat)
    requires word < 0x1_0000_0000 && value < LOW28
    ensures r < 0x1_0000_0000 && r % LOW28 == value && r / LOW28 == word / LOW28
  {
    word / LOW28 * LOW28 + value
  }

  lemma EditTwice(word: nat, a: nat, b: nat)
    requires word < 0x1_0000_0000 && a < LOW28 && b < LOW28
    ensures Edit(Edit(word, a), b) == Edit(word, b)
  {
  }

  ghost predicate Sane(v: Volume, changes: map<nat, nat>) {
    forall c: nat | c in changes :: v.InRange(c) && changes[c] < LOW28
  }

  function ClusterAt(index: nat, slot: nat): nat {
    index * 128 + slot
  }

  /** FAT sector `t` is `s` with the entries of `changes` set, and every other
      word as it was. */
  ghost predicate Patched(v: Volume, s: Sector, t: Sector, index: nat, changes: map<nat, nat>)
    requires Sane(v, changes)
  {
    forall slot: nat | slot < 128 :: Raw(t, slot) == WordAfter(v, s, index, changes, slot)
  }

  ghost function WordAfter(v: Volume, s: Sector, index: nat, changes: map<nat, nat>, slot: nat): nat
    requires Sane(v, changes) && slot < 128
  {
    if ClusterAt(index, slot) in changes then Edit(Raw(s, slot), changes[ClusterAt(index, slot)]) else Raw(s, slot)
  }

  /** The entry of `c` once `changes` are made. */
  ghost function View(v: Volume, d: Image, changes: map<nat, nat>, c: nat): nat
    requires v.Holds(d) && v.InRange(c)
  {
    if c in changes then changes[c] else Fat(v, d, c)
  }

  lemma PatchedView(v: Volume, d: Image, t: Sector, changes: map<nat, nat>, c: nat)
    requires v.Holds(d) && v.InRange(c) && Sane(v, changes)
    requires Patched(v, d[v.fatStart + c / 128], t, c / 128, changes)
    ensures Raw(t, c % 128) % LOW28 == View(v, d, changes, c)
  {
    hide Word, Edit;
    assert ClusterAt(c / 128, c % 128) == c;
    assert Raw(t, c % 128) == WordAfter(v, d[v.fatStart + c / 128], c / 128, changes, c % 128);
  }

  /** The cache of one operation; `changes` are the entries set so far. */
  class FatTable {
    var sectors: seq<Cached>
    ghost var changes: map<nat, nat>

    ghost predicate Valid(v: Volume, d: Image)
      reads this
    {
      v.Holds(d) && CacheOk(v, d, sectors, changes)
    }

    constructor ()
      ensures sectors == [] && changes == map[]
    {
      sectors := [];
      changes := map[];
    }

    method At(v: Volume, disk: Disk, index: nat) returns (at: nat)
      requires Valid(v, disk.sectors) && index < v.fatSize
      modifies this
      ensures Valid(v, disk.sectors) && changes == old(changes)
      ensures at < |sectors| && sectors[at].index == index
      ensures sectors == old(sectors) || (sectors[..|sectors| - 1] == old(sectors) && at == |sectors| - 1
                                          && forall i | 0 <= i < |old(sectors)| :: old(sectors)[i].index != index)
      ensures Ascending(old(sectors)) && index <= |old(sectors)| ==> Ascending(sectors) && index < |sectors|
    {
      for i := 0 to |sectors|
        invariant forall j | 0 <= j < i :: sectors[j].index != index
      {
        if sectors[i].index == index {
          return i;
        }
      }
      AddCache(v, disk.sectors, sectors, changes, index);
      assert index < |sectors| ==> sectors[index].index != index;
      sectors := sectors + [Cached(index, disk.sectors[v.fatStart + index], false)];
      at := |sectors| - 1;
    }

    method Get(v: Volume, disk: Disk, cluster: nat) returns (value: nat)
      requires Valid(v, disk.sectors) && v.InRange(cluster)
      modifies this
      ensures Valid(v, disk.sectors) && changes == old(changes)
      ensures value == View(v, disk.sectors, changes, cluster)
      ensures Ascending(old(sectors)) && cluster / 128 <= |old(sectors)| ==>
                Ascending(sectors) && cluster / 128 < |sectors|
    {
      var at := At(v, disk, cluster / 128);
      assert CachedOk(v, disk.sectors, sectors[at], changes);
      PatchedView(v, disk.sectors, sectors[at].bytes, changes, cluster);
      value := Raw(sectors[at].bytes, cluster % 128) % LOW28;
    }

    /** One more change; a later `Get` sees it, and the disk does not. */
    method Set(v: Volume, disk: Disk, cluster: nat, value: nat)
      requires Valid(v, disk.sectors) && v.InRange(cluster) && value < LOW28
      modifies this
      ensures Valid(v, disk.sectors) && changes == old(changes)[cluster := value]
      ensures |sectors| == if exists i :: 0 <= i < |old(sectors)| && old(sectors)[i].index == cluster / 128
                           then |old(sectors)| else |old(sectors)| + 1
      ensures forall i | 0 <= i < |old(sectors)| :: sectors[i].index == old(sectors)[i].index
    {
      var at := At(v, disk, cluster / 128);
      var held := sectors[at];
      var fixed := Cached(held.index, SetWord(held.bytes, cluster % 128, value), true);
      SetPatched(v, disk.sectors, held, changes, cluster, value, fixed.bytes);
      SetCache(v, disk.sectors, sectors, changes, at, cluster, value);
      sectors := sectors[at := fixed];
      changes := changes[cluster := value];
    }

    /** As `Set`, for a sector the table already holds. */
    method SetCached(v: Volume, disk: Disk, cluster: nat, value: nat)
      requires Valid(v, disk.sectors) && v.InRange(cluster) && value < LOW28
      requires Ascending(sectors) && cluster / 128 < |sectors|
      modifies this
      ensures Valid(v, disk.sectors) && changes == old(changes)[cluster := value]
      ensures Ascending(sectors) && |sectors| == |old(sectors)|
    {
      assert sectors[cluster / 128].index == cluster / 128;
      Set(v, disk, cluster, value);
    }

    /** The log gains each dirty sector once for every FAT, in cache order. */
    method Flush(v: Volume, disk: Disk)
      requires Valid(v, disk.sectors)
      modifies this, disk
      ensures Went(old(disk.sectors), old(disk.log), disk.sectors, disk.log, FlushLog(v, old(sectors)))
      ensures forall i | 0 <= i < |sectors| :: !sectors[i].dirty
    {
      ghost var d0, log0, all := disk.sectors, disk.log, sectors;
      hide Replay, CopyPuts, Patched;
      WentNone(d0, log0);
      for i := 0 to |sectors|
        invariant |sectors| == |all| && forall j | i <= j < |sectors| :: sectors[j] == all[j]
        invariant forall j | 0 <= j < i :: !sectors[j].dirty
        invariant Went(d0, log0, disk.sectors, disk.log, FlushLog(v, all[..i]))
      {
        assert all[..i + 1][..i] == all[..i];
        assert FlushLog(v, all[..i]) + [] == FlushLog(v, all[..i]);
        if sectors[i].dirty {
          var cached := sectors[i];
          assert CachedOk(v, d0, cached, old(changes));
          ghost var d, log := disk.sectors, disk.log;
          FlushCopiesOf(v, disk, cached);
          WentOn(d0, log0, d, log, FlushLog(v, all[..i]), disk.sectors, disk.log, CopyPuts(v, cached.index,
              cached.bytes));
          sectors := sectors[i := Cached(cached.index, cached.bytes, false)];
        }
      }
      assert all[..|all|] == all;
    }
  }

  /** One sector into every FAT copy. */
  method FlushCopiesOf(v: Volume, disk: Disk, cached: Cached)
    requires v.Holds(disk.sectors) && cached.index < v.fatSize
    modifies disk
    ensures Went(old(disk.sectors), old(disk.log), disk.sectors, disk.log, CopyPuts(v, cached.index, cached.bytes))
  {
    ghost var d0, log0, puts := disk.sectors, disk.log, CopyPuts(v, cached.index, cached.bytes);
    hide Replay, Fat;
    WentNone(d0, log0);
    assert puts[..0] == [];
    for copy := 0 to v.fats
      invariant Went(d0, log0, disk.sectors, disk.log, puts[..copy])
    {
      FatLbaInside(v, d0, copy, cached.index);
      assert puts[..copy + 1] == puts[..copy] + [puts[copy]];
      WentPut(d0, log0, disk.sectors, disk.log, puts[..copy], puts[copy]);
      disk.Write(FatLba(v, copy, cached.index), cached.bytes);
    }
    assert puts[..v.fats] == puts;
  }

  ghost predicate Ascending(cache: seq<Cached>) {
    forall i | 0 <= i < |cache| :: cache[i].index == i
  }

  ghost predicate CachedOk(v: Volume, d: Image, cached: Cached, changes: map<nat, nat>)
    requires v.Holds(d) && Sane(v, changes)
  {
    && cached.index < v.fatSize
    && Patched(v, d[v.fatStart + cached.index], cached.bytes, cached.index, changes)
  }

  /** The cache holds each FAT sector at most once, with the changes made, and
      every sector a change falls in, marked to be written. */
  ghost predicate CacheOk(v: Volume, d: Image, cache: seq<Cached>, changes: map<nat, nat>)
    requires v.Holds(d)
  {
    && Sane(v, changes)
    && Indexed(v, cache)
    && (forall i | 0 <= i < |cache| :: CachedOk(v, d, cache[i], changes))
    && (forall c: nat | c in changes :: DirtyIn(cache, c / 128))
  }

  ghost predicate Indexed(v: Volume, cache: seq<Cached>) {
    && (forall i | 0 <= i < |cache| :: cache[i].index < v.fatSize)
    && (forall i, j | 0 <= i < j < |cache| :: cache[i].index != cache[j].index)
  }

  ghost predicate DirtyIn(cache: seq<Cached>, index: nat) {
    exists i :: 0 <= i < |cache| && cache[i].index == index && cache[i].dirty
  }

  lemma SetCache(v: Volume, d: Image, cache: seq<Cached>, changes: map<nat, nat>, at: nat, c: nat, value: nat)
    requires v.Holds(d) && CacheOk(v, d, cache, changes) && v.InRange(c) && value < LOW28
    requires at < |cache| && cache[at].index == c / 128
    ensures CacheOk(v, d, cache[at := Cached(c / 128, SetWord(cache[at].bytes, c % 128, value), true)],
            changes[c := value])
  {
    var bytes := SetWord(cache[at].bytes, c % 128, value);
    var after := cache[at := Cached(c / 128, bytes, true)];
    SetPatched(v, d, cache[at], changes, c, value, bytes);
    forall i | 0 <= i < |after|
      ensures CachedOk(v, d, after[i], changes[c := value])
    {
      if i != at {
        KeepPatched(v, d, cache[i], changes, c, value);
      }
    }
    forall x: nat | x in changes[c := value]
      ensures DirtyIn(after, x / 128)
    {
      if x == c {
        assert after[at].index == x / 128;
      } else {
        assert DirtyIn(cache, x / 128);
        var i :| 0 <= i < |cache| && cache[i].index == x / 128 && cache[i].dirty;
        assert after[i].index == x / 128 && after[i].dirty;
      }
    }
  }

  lemma AddCache(v: Volume, d: Image, cache: seq<Cached>, changes: map<nat, nat>, index: nat)
    requires v.Holds(d) && CacheOk(v, d, cache, changes) && index < v.fatSize
    requires forall i | 0 <= i < |cache| :: cache[i].index != index
    ensures CacheOk(v, d, cache + [Cached(index, d[v.fatStart + index], false)], changes)
  {
    var s := d[v.fatStart + index];
    var after := cache + [Cached(index, s, false)];
    forall c: nat | c in changes
      ensures DirtyIn(after, c / 128) && c / 128 != index
    {
      assert DirtyIn(cache, c / 128);
      var i :| 0 <= i < |cache| && cache[i].index == c / 128 && cache[i].dirty;
      assert after[i] == cache[i];
    }
    forall slot: nat | slot < 128
      ensures Raw(s, slot) == WordAfter(v, s, index, changes, slot)
    {
      assert ClusterAt(index, slot) / 128 == index;
    }
  }

  lemma SetPatched(v: Volume, d: Image, held: Cached, changes: map<nat, nat>, c: nat, value: nat, bytes: Sector)
    requires v.Holds(d) && Sane(v, changes) && v.InRange(c) && value < LOW28
    requires CachedOk(v, d, held, changes) && held.index == c / 128
    requires bytes == SetWord(held.bytes, c % 128, value)
    ensures CachedOk(v, d, Cached(held.index, bytes, true), changes[c := value])
  {
    var s, after := d[v.fatStart + held.index], changes[c := value];
    assert ClusterAt(held.index, c % 128) == c;
    forall slot: nat | slot < 128
      ensures Raw(bytes, slot) == WordAfter(v, s, held.index, after, slot)
    {
      assert Raw(held.bytes, slot) == WordAfter(v, s, held.index, changes, slot);
      SetWordAt(held.bytes, c % 128, value, slot);
      if slot == c % 128 {
        if c in changes {
          EditTwice(Raw(s, slot), changes[c], value);
        }
      } else {
        assert ClusterAt(held.index, slot) != c;
      }
    }
  }

  /** The sector with the entry `slot` set. */
  function SetWord(s: Sector, slot: nat, value: nat): Sector
    requires slot < 128 && value < LOW28
  {
    PutWord(s, slot, Le4(Edit(Raw(s, slot), value)))
  }

  lemma SetWordAt(s: Sector, slot: nat, value: nat, other: nat)
    requires slot < 128 && value < LOW28 && other < 128
    ensures Raw(SetWord(s, slot, value), other) == if other == slot then Edit(Raw(s, slot), value) else Raw(s, other)
  {
    RawAfter(s, slot, Edit(Raw(s, slot), value), other);
  }

  lemma KeepPatched(v: Volume, d: Image, cached: Cached, changes: map<nat, nat>, c: nat, value: nat)
    requires v.Holds(d) && Sane(v, changes) && v.InRange(c) && value < LOW28
    requires CachedOk(v, d, cached, changes) && cached.index != c / 128
    ensures CachedOk(v, d, cached, changes[c := value])
  {
    var s, after := d[v.fatStart + cached.index], changes[c := value];
    forall slot: nat | slot < 128
      ensures Raw(cached.bytes, slot) == WordAfter(v, s, cached.index, after, slot)
    {
      assert Raw(cached.bytes, slot) == WordAfter(v, s, cached.index, changes, slot);
      assert ClusterAt(cached.index, slot) / 128 == cached.index;
    }
  }

  // ---- What a flush writes ----------------------------------------------------------------------

  /** Sector `index` of FAT copy `copy`. */
  function FatLba(v: Volume, copy: nat, index: nat): nat {
    v.fatStart + Times(copy, v.fatSize) + index
  }

  lemma FatLbaInside(v: Volume, d: Image, copy: nat, index: nat)
    requires v.Holds(d) && copy < v.fats && index < v.fatSize
    ensures v.fatStart <= FatLba(v, copy, index) < v.dataStart <= |d|
  {
    TimesMono(copy, v.fats, v.fatSize);
  }

  lemma FatLbaUnique(v: Volume, copy: nat, index: nat, copy': nat, index': nat)
    requires index < v.fatSize && index' < v.fatSize
    requires FatLba(v, copy, index) == FatLba(v, copy', index')
    ensures copy == copy' && index == index'
  {
    if copy < copy' {
      TimesMono(copy, copy', v.fatSize);
    } else if copy' < copy {
      TimesMono(copy', copy, v.fatSize);
    }
  }

  ghost function CopyPuts(v: Volume, index: nat, bytes: Sector): seq<Event> {
    seq(v.fats, copy requires 0 <= copy < v.fats => Put(FatLba(v, copy, index), bytes))
  }

  ghost function FlushLog(v: Volume, cache: seq<Cached>): seq<Event> {
    if cache == [] then []
    else
      var last := cache[|cache| - 1];
      FlushLog(v, cache[..|cache| - 1]) + if last.dirty then CopyPuts(v, last.index, last.bytes) else []
  }

  /** Each write of a flush is a dirty cached sector into one FAT copy. */
  lemma {:induction false} FlushEvent(v: Volume, cache: seq<Cached>, k: nat) returns (i: nat, copy: nat)
    requires k < |FlushLog(v, cache)|
    ensures i < |cache| && cache[i].dirty && copy < v.fats
    ensures FlushLog(v, cache)[k] == Put(FatLba(v, copy, cache[i].index), cache[i].bytes)
  {
    var front := FlushLog(v, cache[..|cache| - 1]);
    if k < |front| {
      i, copy := FlushEvent(v, cache[..|cache| - 1], k);
    } else {
      i, copy := |cache| - 1, k - |front|;
    }
  }

  /** A flush leaves each dirty sector, in every copy, as it was cached. */
  lemma {:induction false} FlushFinal(v: Volume, d: Image, cache: seq<Cached>, i: nat, copy: nat)
    requires v.Holds(d) && i < |cache| && copy < v.fats && cache[i].dirty && Indexed(v, cache)
    ensures FatLba(v, copy, cache[i].index) < |d|
    ensures Replay(d, FlushLog(v, cache))[FatLba(v, copy, cache[i].index)] == cache[i].bytes
  {
    FatLbaInside(v, d, copy, cache[i].index);
    var n := |cache| - 1;
    var front := FlushLog(v, cache[..n]);
    var back := if cache[n].dirty then CopyPuts(v, cache[n].index, cache[n].bytes) else [];
    ReplayConcat(d, front, back);
    var mid := Replay(d, front);
    if i == n {
      CopyPutsFinal(v, mid, cache[n].index, cache[n].bytes, v.fats, copy);
      assert back[..v.fats] == back;
    } else {
      FlushFinal(v, d, cache[..n], i, copy);
      forall k | 0 <= k < |back|
        ensures back[k].lba != FatLba(v, copy, cache[i].index)
      {
        if back[k].lba == FatLba(v, copy, cache[i].index) {
          FatLbaUnique(v, k, cache[n].index, copy, cache[i].index);
        }
      }
      ReplayUntouched(mid, back, FatLba(v, copy, cache[i].index));
    }
  }

  lemma {:induction false} CopyPutsFinal(v: Volume, d: Image, index: nat, bytes: Sector, n: nat, copy: nat)
    requires v.Holds(d) && index < v.fatSize && copy < n <= v.fats
    ensures FatLba(v, copy, index) < |d|
    ensures Replay(d, CopyPuts(v, index, bytes)[..n])[FatLba(v, copy, index)] == bytes
  {
    FatLbaInside(v, d, copy, index);
    var w := CopyPuts(v, index, bytes);
    assert w[..n][..n - 1] == w[..n - 1];
    if copy < n - 1 {
      CopyPutsFinal(v, d, index, bytes, n - 1, copy);
    }
  }

  /** Mid-flush, a sector of the first FAT copy is as it was, or patched. */
  lemma {:induction false} FlushSector(v: Volume, d: Image, cache: seq<Cached>, changes: map<nat, nat>, k: nat,
      index: nat)
    requires v.Holds(d) && CacheOk(v, d, cache, changes) && k <= |FlushLog(v, cache)| && index < v.fatSize
    ensures var e := Replay(d, FlushLog(v, cache)[..k]);
            e[v.fatStart + index] == d[v.fatStart + index]
            || Patched(v, d[v.fatStart + index], e[v.fatStart + index], index, changes)
  {
    if k > 0 {
      var w := FlushLog(v, cache);
      assert w[..k][..k - 1] == w[..k - 1];
      FlushSector(v, d, cache, changes, k - 1, index);
      var i, copy := FlushEvent(v, cache, k - 1);
      assert CachedOk(v, d, cache[i], changes);
      if FatLba(v, copy, cache[i].index) == FatLba(v, 0, index) {
        FatLbaUnique(v, copy, cache[i].index, 0, index);
      }
    }
  }

  /** Entries that are not among the changes never move, in any prefix of a
      flush, and no data sector is written. */
  lemma FlushAgree(v: Volume, d: Image, cache: seq<Cached>, changes: map<nat, nat>)
    requires v.Holds(d) && CacheOk(v, d, cache, changes)
    ensures AgreeAll(v, d, FlushLog(v, cache), changes.Keys)
  {
    var w := FlushLog(v, cache);
    forall k | 0 <= k <= |w|
      ensures Agree(v, d, Replay(d, w[..k]), changes.Keys)
    {
      var e := Replay(d, w[..k]);
      forall c: nat | v.InRange(c) && c !in changes.Keys
        ensures Fat(v, e, c) == Fat(v, d, c)
      {
        FlushSector(v, d, cache, changes, k, c / 128);
        if e[v.fatStart + c / 128] != d[v.fatStart + c / 128] {
          PatchedFat(v, d, e, changes, c);
        }
      }
      forall c: nat, s: nat | Owns(v, c, s) && s < |d|
        ensures e[s] == d[s]
      {
        FlushBelow(v, d, cache, s);
        ReplayUntouched(d, w[..k], s);
      }
    }
  }

  /** A flush writes nothing from the data area on, nor before the FATs. */
  lemma FlushBelow(v: Volume, d: Image, cache: seq<Cached>, s: nat)
    requires v.Holds(d) && Indexed(v, cache)
    requires v.dataStart <= s || s < v.fatStart
    ensures forall k | 0 <= k < |FlushLog(v, cache)| :: FlushLog(v, cache)[k].Put? && FlushLog(v, cache)[k].lba != s
  {
    forall k | 0 <= k < |FlushLog(v, cache)|
      ensures FlushLog(v, cache)[k].Put? && FlushLog(v, cache)[k].lba != s
    {
      var i, copy := FlushEvent(v, cache, k);
      FatLbaInside(v, d, copy, cache[i].index);
    }
  }

  lemma FlushChanged(v: Volume, d: Image, cache: seq<Cached>, changes: map<nat, nat>, c: nat)
    requires v.Holds(d) && CacheOk(v, d, cache, changes) && v.fats > 0 && c in changes && v.InRange(c)
    ensures Fat(v, Replay(d, FlushLog(v, cache)), c) == changes[c]
  {
    hide FlushLog, Replay, Raw, WordAfter, Patched, Fat;
    assert DirtyIn(cache, c / 128);
    var i :| 0 <= i < |cache| && cache[i].index == c / 128 && cache[i].dirty;
    var e := Replay(d, FlushLog(v, cache));
    FlushFinal(v, d, cache, i, 0);
    assert FatLba(v, 0, c / 128) == v.fatStart + c / 128;
    assert CachedOk(v, d, cache[i], changes);
    PatchedFat(v, d, e, changes, c);
  }

  lemma PatchedFat(v: Volume, d: Image, e: Image, changes: map<nat, nat>, c: nat)
    requires v.Holds(d) && v.InRange(c) && Sane(v, changes) && |e| == |d|
    requires Patched(v, d[v.fatStart + c / 128], e[v.fatStart + c / 128], c / 128, changes)
    ensures Fat(v, e, c) == View(v, d, changes, c)
  {
    PatchedView(v, d, e[v.fatStart + c / 128], changes, c);
  }

  /** A completed flush makes the changes, all of them and nothing else. */
  lemma FlushView(v: Volume, d: Image, cache: seq<Cached>, changes: map<nat, nat>, c: nat)
    requires v.Holds(d) && CacheOk(v, d, cache, changes) && v.fats > 0 && v.InRange(c)
    ensures Fat(v, Replay(d, FlushLog(v, cache)), c) == View(v, d, changes, c)
  {
    if c in changes {
      FlushChanged(v, d, cache, changes, c);
    } else {
      FlushAgree(v, d, cache, changes);
      AgreeEnd(v, d, FlushLog(v, cache), changes.Keys);
    }
  }

  /** All FAT copies hold the same sectors. */
  ghost predicate CopiesEqual(v: Volume, d: Image)
    requires v.Holds(d)
  {
    forall copy: nat, index: nat | copy < v.fats && index < v.fatSize ::
      FatLba(v, copy, index) < |d| && d[FatLba(v, copy, index)] == d[v.fatStart + index]
  }

  /** A completed flush keeps the FAT copies equal. */
  lemma FlushCopies(v: Volume, d: Image, cache: seq<Cached>, changes: map<nat, nat>)
    requires v.Holds(d) && CacheOk(v, d, cache, changes) && CopiesEqual(v, d)
    ensures CopiesEqual(v, Replay(d, FlushLog(v, cache)))
  {
    var w := FlushLog(v, cache);
    var e := Replay(d, w);
    forall copy: nat, index: nat | copy < v.fats && index < v.fatSize
      ensures FatLba(v, copy, index) < |e| && e[FatLba(v, copy, index)] == e[v.fatStart + index]
    {
      FatLbaInside(v, d, copy, index);
      if DirtyIn(cache, index) {
        var i :| 0 <= i < |cache| && cache[i].index == index && cache[i].dirty;
        FlushFinal(v, d, cache, i, copy);
        FlushFinal(v, d, cache, i, 0);
      } else {
        FlushOther(v, cache, copy, index);
        FlushOther(v, cache, 0, index);
        ReplayUntouched(d, w, FatLba(v, copy, index));
        ReplayUntouched(d, w, FatLba(v, 0, index));
      }
    }
  }

  lemma FlushOther(v: Volume, cache: seq<Cached>, copy: nat, index: nat)
    requires Indexed(v, cache) && index < v.fatSize
    requires forall i | 0 <= i < |cache| :: cache[i].index == index ==> !cache[i].dirty
    ensures forall k | 0 <= k < |FlushLog(v, cache)| ::
              FlushLog(v, cache)[k].Put? && FlushLog(v, cache)[k].lba != FatLba(v, copy, index)
  {
    forall k | 0 <= k < |FlushLog(v, cache)|
      ensures FlushLog(v, cache)[k].Put? && FlushLog(v, cache)[k].lba != FatLba(v, copy, index)
    {
      var i, copy' := FlushEvent(v, cache, k);
      if FatLba(v, copy', cache[i].index) == FatLba(v, copy, index) {
        FatLbaUnique(v, copy', cache[i].index, copy, index);
      }
    }
  }

  // ---- Free clusters ----------------------------------------------------------------------------

  /** The free clusters from `c` on, in order. */
  ghost function FreeFrom(v: Volume, d: Image, c: nat): (r: seq<nat>)
    requires v.Holds(d) && 2 <= c
    decreases v.clusters + 2 - c
  {
    if c >= v.clusters + 2 then []
    else if Fat(v, d, c) == 0 then [c] + FreeFrom(v, d, c + 1)
    else FreeFrom(v, d, c + 1)
  }

  ghost function FreeSet(v: Volume, d: Image): set<nat>
    requires v.Holds(d)
  {
    set c: nat | c < v.clusters + 2 && v.InRange(c) && Fat(v, d, c) == 0
  }

  lemma {:induction false} FreeFromIs(v: Volume, d: Image, c: nat)
    requires v.Holds(d) && 2 <= c
    ensures var r := FreeFrom(v, d, c);
            && v.AllIn(r) && (forall i, j | 0 <= i < j < |r| :: r[i] < r[j])
            && (forall i | 0 <= i < |r| :: c <= r[i] && Fat(v, d, r[i]) == 0)
            && (forall x: nat | v.InRange(x) && c <= x && Fat(v, d, x) == 0 :: x in r)
    decreases v.clusters + 2 - c
  {
    if c < v.clusters + 2 {
      FreeFromIs(v, d, c + 1);
      var r, rest := FreeFrom(v, d, c), FreeFrom(v, d, c + 1);
      forall x: nat | v.InRange(x) && c <= x && Fat(v, d, x) == 0
        ensures x in r
      {
        assert x == c || x in rest;
      }
    }
  }

  ghost function Elements(s: seq<nat>): set<nat> {
    set x | x in s
  }

  lemma {:induction false} DistinctCount(s: seq<nat>)
    requires Distinct(s)
    ensures |Elements(s)| == |s|
  {
    if s != [] {
      var n := |s| - 1;
      var front := s[..n];
      DistinctCount(front);
      assert s == front + [s[n]];
      assert Elements(s) == Elements(front) + {s[n]};
      assert s[n] !in Elements(front);
    }
  }

  lemma FreeCount(v: Volume, d: Image)
    requires v.Holds(d)
    ensures |FreeSet(v, d)| == |FreeFrom(v, d, 2)|
  {
    FreeFromIs(v, d, 2);
    DistinctCount(FreeFrom(v, d, 2));
    assert FreeSet(v, d) == Elements(FreeFrom(v, d, 2));
  }

  /** The entries that chain `chain`, the last one ending it. */
  ghost function Links(chain: seq<nat>): map<nat, nat> {
    LinkSome(chain, |chain|)
  }

  ghost function LinkSome(chain: seq<nat>, n: nat): map<nat, nat>
    requires n <= |chain|
  {
    if n == 0 then map[]
    else LinkSome(chain, n - 1)[chain[n - 1] := if n < |chain| then chain[n] else END_MARK]
  }

  lemma {:induction false} LinkSomeAt(chain: seq<nat>, n: nat)
    requires n <= |chain| && Distinct(chain)
    ensures LinkSome(chain, n).Keys == Elements(chain[..n])
    ensures forall i | 0 <= i < n :: LinkSome(chain, n)[chain[i]] == if i + 1 < |chain| then chain[i + 1] else END_MARK
  {
    if n > 0 {
      LinkSomeAt(chain, n - 1);
      assert chain[..n] == chain[..n - 1] + [chain[n - 1]];
    }
  }

  /** The scan of `Allocate`. */
  method FindFree(v: Volume, disk: Disk, table: FatTable, count: nat) returns (r: Option<seq<nat>>)
    requires table.Valid(v, disk.sectors) && table.changes == map[] && table.sectors == []
    modifies table
    ensures table.Valid(v, disk.sectors) && table.changes == map[] && Ascending(table.sectors)
    ensures var free := FreeFrom(v, disk.sectors, 2);
            r == if count <= |free| then Some(free[..count]) else None
    ensures r.Some? && r.value != [] ==> r.value[|r.value| - 1] / 128 < |table.sectors|
  {
    ghost var d := disk.sectors;
    ghost var free := FreeFrom(v, d, 2);
    var chain: seq<nat> := [];
    var cluster: nat := 2;
    assert [] + free == free;
    while |chain| < count
      invariant 2 <= cluster <= v.clusters + 2 && |chain| <= count
      invariant chain + FreeFrom(v, d, cluster) == free
      invariant table.Valid(v, d) && table.changes == map[]
      invariant Scanned(table.sectors, cluster)
      invariant chain != [] ==> 2 <= chain[|chain| - 1] < cluster
      decreases v.clusters + 2 - cluster
    {
      if cluster >= v.clusters + 2 {
        assert chain + [] == chain;
        return None;
      }
      ScanMore(table.sectors, cluster);
      var value := table.Get(v, disk, cluster);
      FreeStep(v, d, chain, cluster);
      if value == 0 {
        chain := chain + [cluster];
      }
      cluster := cluster + 1;
    }
    assert free[..count] == chain;
    if chain != [] {
      ScanHas(table.sectors, cluster, chain[|chain| - 1]);
    }
    r := Some(chain);
  }

  /** The cache after the entries below `cluster` were read. */
  ghost predicate Scanned(cache: seq<Cached>, cluster: nat) {
    Ascending(cache) && (cluster == 2 || (cluster > 2 && (cluster - 1) / 128 < |cache|))
  }

  lemma ScanMore(cache: seq<Cached>, cluster: nat)
    requires Scanned(cache, cluster)
    ensures cluster / 128 <= |cache|
  {
  }

  lemma ScanHas(cache: seq<Cached>, cluster: nat, c: nat)
    requires Scanned(cache, cluster) && 2 <= c < cluster
    ensures c / 128 < |cache|
  {
  }

  lemma FreeStep(v: Volume, d: Image, chain: seq<nat>, c: nat)
    requires v.Holds(d) && v.InRange(c)
    ensures chain + FreeFrom(v, d, c) == (if Fat(v, d, c) == 0 then chain + [c] else chain) + FreeFrom(v, d, c + 1)
  {
  }

  /** The first `count` free clusters, linked in the table and nowhere else; with
      fewer free ones, None and an unchanged table. */
  method Allocate(v: Volume, disk: Disk, table: FatTable, count: nat) returns (r: Option<seq<nat>>)
    requires table.Valid(v, disk.sectors) && table.changes == map[] && table.sectors == []
    modifies table
    ensures table.Valid(v, disk.sectors) && Ascending(table.sectors)
    ensures var free := FreeFrom(v, disk.sectors, 2);
            r == if count <= |free| then Some(free[..count]) else None
    ensures table.changes == if r.Some? then Links(r.value) else map[]
    ensures r.Some? && r.value != [] ==> r.value[|r.value| - 1] / 128 < |table.sectors|
  {
    r := FindFree(v, disk, table, count);
    if r.None? {
      return;
    }
    FreeFromIs(v, disk.sectors, 2);
    ghost var free := FreeFrom(v, disk.sectors, 2);
    forall i | 0 <= i < |r.value|
      ensures r.value[i] / 128 < |table.sectors| && v.InRange(r.value[i])
    {
      assert r.value[i] == free[i] <= free[|r.value| - 1];
    }
    LinkAll(v, disk, table, r.value);
  }

  /** The loop of `Allocate` that sets the entries. */
  method LinkAll(v: Volume, disk: Disk, table: FatTable, chain: seq<nat>)
    requires table.Valid(v, disk.sectors) && table.changes == map[] && Ascending(table.sectors)
    requires v.AllIn(chain) && forall i | 0 <= i < |chain| :: chain[i] / 128 < |table.sectors|
    modifies table
    ensures table.Valid(v, disk.sectors) && table.changes == Links(chain)
    ensures Ascending(table.sectors) && |table.sectors| == |old(table.sectors)|
  {
    for i := 0 to |chain|
      invariant table.Valid(v, disk.sectors) && table.changes == LinkSome(chain, i)
      invariant Ascending(table.sectors) && |table.sectors| == |old(table.sectors)|
    {
      table.SetCached(v, disk, chain[i], if i + 1 < |chain| then chain[i + 1] else END_MARK);
    }
  }
}
