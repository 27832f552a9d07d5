/** One file overwritten on a disk that may lose writes: every other path reads
    as before, and the file is a mixture of its old and its new sectors. */
module InstallCrash {
  import opened Base
  import opened Blocks
  import opened Crashes
  import opened FatLayout
  import opened FatChain
  import opened FatData
  import opened FatTree
  import opened FatFrame
  import opened FatTables
  import opened FatSlots
  import opened FatWrite
  import opened FatOverwrite

  /** Where `overwrite` writes, and what. */
  ghost function Target(v: Volume, t: Tree, entry: Entry): seq<nat>
    requires v.spc > 0 && Needed(v, entry.size) <= |ChainAt(t, entry.cluster)|
  {
    ChainLbas(v, ChainAt(t, entry.cluster)[..Needed(v, entry.size)])
  }

  /** `path` is a file that `overwrite` accepts `data` for. */
  ghost predicate Overwritable(v: Volume, d: Image, t: Tree, path: Path, data: seq<byte>) {
    WellFormed(v, d, t) && v.Holds(d) && Find(v, d, path).Some?
        && OverwriteLog(v, d, Find(v, d, path).value, data).Some?
  }

  /** Byte `j` of `data`, zeros after it. */
  function ByteOf(data: seq<byte>, j: nat): byte {
    if j < |data| then data[j] else 0
  }

  predicate SameSector(data: seq<byte>, m: seq<byte>, s: nat) {
    forall j | 0 <= j < |m| && j / 512 == s :: m[j] == ByteOf(data, j)
  }

  /** A file of the size of `before` that has each of its sectors from `before` or
      from `data`, with zeros after it. */
  ghost predicate Mixture(before: seq<byte>, data: seq<byte>, m: seq<byte>) {
    |m| == |before| && forall s: nat :: SameSector(before, m, s) || SameSector(data, m, s)
  }

  /** Of two files that differ in one sector there is no other mixture. */
  lemma OneSector(before: seq<byte>, data: seq<byte>, m: seq<byte>, s: nat)
    requires Mixture(before, data, m) && forall j | 0 <= j < |before| && j / 512 != s :: before[j] == ByteOf(data, j)
    ensures m == before || forall j | 0 <= j < |m| :: m[j] == ByteOf(data, j)
  {
    var late := SameSector(data, m, s);
    forall j | 0 <= j < |m|
      ensures m[j] == if late then ByteOf(data, j) else before[j]
    {
      assert SameSector(before, m, j / 512) || SameSector(data, m, j / 512);
    }
  }

  /** A mixture of old and new sectors is still only that file's. */
  lemma MixedOnly(v: Volume, d: Image, t: Tree, path: Path, data: seq<byte>, e: Image)
    requires Overwritable(v, d, t, path, data)
    requires v.spc > 0 && Needed(v, Find(v, d, path).value.size) <= |ChainAt(t, Find(v, d, path).value.cluster)|
    requires var lbas := Target(v, t, Find(v, d, path).value); Mixed(d, lbas, Padded(data, |lbas|), e)
    ensures OnlyFile(v, d, e, t, Find(v, d, path).value.cluster)
  {
    hide WellFormed, Find, ChainLbas, Padded, Owns, Needed, ChainOf, OverwriteLog, Fat;
    var entry := Find(v, d, path).value;
    OverwriteChain(v, d, t, path, data);
    var front := ChainAt(t, entry.cluster)[..Needed(v, entry.size)];
    var lbas := ChainLbas(v, front);
    LbasInside(v, d, front);
    assert SameHead(v, d, e);
    SameHeadFat(v, d, e);
    forall c: nat, s: nat | Owns(v, c, s) && c !in Elements(ChainAt(t, entry.cluster)) && s < |d|
      ensures e[s] == d[s]
    {
      if s in lbas {
        var i :| 0 <= i < |lbas| && lbas[i] == s;
        var j := ChainOwner(v, front, i);
        OwnerUnique(v, c, front[j], s);
      }
    }
  }

  /** Whatever was lost of an overwrite, it shows in that file alone. */
  lemma LostElsewhere(v: Volume, d: Image, t: Tree, path: Path, data: seq<byte>, k: nat, e: Image, q: Path)
    requires Overwritable(v, d, t, path, data) && k <= |OverwriteLog(v, d, Find(v, d, path).value, data).value|
    requires Survives(d, OverwriteLog(v, d, Find(v, d, path).value, data).value[..k], e)
    ensures v.Holds(e) && WellFormed(v, e, t) && Find(v, e, q) == Find(v, d, q)
    ensures !SamePath(v, q, path) ==> Contents(v, e, q) == Contents(v, d, q)
  {
    hide WellFormed, Find, Padded, Survives, SamePath, OnlyFile, Contents, Mixed, ChainLbas, OverwriteLog;
    LostMixed(v, d, t, path, data, k, e);
    MixedOnly(v, d, t, path, data, e);
    OverwriteChain(v, d, t, path, data);
    OnlyFileTree(v, d, e, t, path, q);
  }

  lemma LostMixed(v: Volume, d: Image, t: Tree, path: Path, data: seq<byte>, k: nat, e: Image)
    requires Overwritable(v, d, t, path, data) && k <= |OverwriteLog(v, d, Find(v, d, path).value, data).value|
    requires Survives(d, OverwriteLog(v, d, Find(v, d, path).value, data).value[..k], e)
    ensures var entry := Find(v, d, path).value;
            && v.spc > 0 && Needed(v, entry.size) <= |ChainAt(t, entry.cluster)|
            && var lbas := Target(v, t, entry); Mixed(d, lbas, Padded(data, |lbas|), e)
  {
    hide WellFormed, Find, Padded, Survives, Needed, Mixed, ChainLbas, Puts, OverwriteLog;
    var entry := Find(v, d, path).value;
    OverwriteChain(v, d, t, path, data);
    var front := ChainAt(t, entry.cluster)[..Needed(v, entry.size)];
    assert v.AllIn(front) && Distinct(front);
    ChainLbasDistinct(v, front);
    var lbas := ChainLbas(v, front);
    PutsCount(lbas, Padded(data, |lbas|));
    SurvivesMixed(d, lbas, Padded(data, |lbas|), k, e);
  }

  lemma PutsCount(lbas: seq<nat>, data: seq<Sector>)
    requires |lbas| == |data|
    ensures |Puts(lbas, data)| == |lbas|
  {
  }

  /** Whatever was lost, the file is a mixture of what it was and what it was to
      be. */
  lemma LostMixture(v: Volume, d: Image, t: Tree, path: Path, before: seq<byte>, data: seq<byte>, k: nat, e: Image)
    returns (m: seq<byte>)
    requires Overwritable(v, d, t, path, data) && k <= |OverwriteLog(v, d, Find(v, d, path).value, data).value|
    requires Survives(d, OverwriteLog(v, d, Find(v, d, path).value, data).value[..k], e)
    requires Contents(v, d, path) == Some(File(before))
    ensures v.Holds(e) && Contents(v, e, path) == Some(File(m)) && Mixture(before, data, m)
  {
    hide WellFormed, Find, Padded, Survives, SamePath, Mixed, Mixture, ChainLbas, OverwriteLog, FileBytes;
    var entry := Find(v, d, path).value;
    OverwriteChain(v, d, t, path, data);
    LostMixed(v, d, t, path, data, k, e);
    LostElsewhere(v, d, t, path, data, k, e, path);
    LostHead(v, d, t, path, data, e);
    if entry.size > 0 {
      m := MixedReads(v, d, e, t, entry, before, data);
    } else {
      m := [];
      SizeZero(v, d, entry);
      SizeZero(v, e, entry);
      NoMixture(data);
    }
  }

  /** A file that was at a path is there, as a mixture of what it was and `data`. */
  ghost predicate MixedFile(v: Volume, d: Image, e: Image, path: Path, data: seq<byte>)
    requires v.Holds(d) && v.Holds(e)
  {
    match Contents(v, d, path)
    case Some(File(before)) =>
      var now := Contents(v, e, path);
      now.Some? && now.value.File? && Mixture(before, data, now.value.bytes)
    case _ => true
  }

  lemma MixedSelf(v: Volume, d: Image, path: Path, data: seq<byte>)
    requires v.Holds(d)
    ensures MixedFile(v, d, d, path, data)
  {
    hide Contents;
    match Contents(v, d, path)
    case Some(File(before)) => assert forall s: nat :: SameSector(before, before, s);
    case _ =>
  }

  lemma LostFile(v: Volume, d: Image, t: Tree, path: Path, data: seq<byte>, k: nat, e: Image)
    requires Overwritable(v, d, t, path, data) && k <= |OverwriteLog(v, d, Find(v, d, path).value, data).value|
    requires Survives(d, OverwriteLog(v, d, Find(v, d, path).value, data).value[..k], e)
    ensures v.Holds(e) && MixedFile(v, d, e, path, data)
  {
    hide WellFormed, Find, Survives, Contents, Mixture, OverwriteLog;
    LostElsewhere(v, d, t, path, data, k, e, path);
    match Contents(v, d, path)
    case Some(File(before)) =>
      var m := LostMixture(v, d, t, path, before, data, k, e);
    case _ =>
  }

  lemma NoMixture(data: seq<byte>)
    ensures Mixture([], data, [])
  {
  }

  /** One byte changed: the file reads as it was or as it was to be. */
  lemma OneByte(v: Volume, d: Image, t: Tree, path: Path, before: seq<byte>, after: seq<byte>, at: nat, k: nat,
      e: Image)
    requires Overwritable(v, d, t, path, after) && k <= |OverwriteLog(v, d, Find(v, d, path).value, after).value|
    requires Survives(d, OverwriteLog(v, d, Find(v, d, path).value, after).value[..k], e)
    requires Contents(v, d, path) == Some(File(before)) && |after| == |before| == Find(v, d, path).value.size
    requires forall i | 0 <= i < |before| && i != at :: after[i] == before[i]
    ensures v.Holds(e) && (Contents(v, e, path) == Some(File(before)) || Contents(v, e, path) == Some(File(after)))
  {
    hide WellFormed, Find, Survives, Contents, Mixture, OverwriteLog;
    var m := LostMixture(v, d, t, path, before, after, k, e);
    OneSector(before, after, m, at / 512);
    MixtureSize(before, after, m);
    assert m == before || m == after;
  }

  lemma MixtureSize(before: seq<byte>, data: seq<byte>, m: seq<byte>)
    requires Mixture(before, data, m)
    ensures |m| == |before|
  {
  }

  lemma SizeZero(v: Volume, d: Image, entry: Entry)
    requires v.Holds(d) && entry.size == 0
    ensures FileBytes(v, d, entry, 0) == Some([])
  {
  }

  lemma LostHead(v: Volume, d: Image, t: Tree, path: Path, data: seq<byte>, e: Image)
    requires Overwritable(v, d, t, path, data)
    requires v.spc > 0 && Needed(v, Find(v, d, path).value.size) <= |ChainAt(t, Find(v, d, path).value.cluster)|
    requires var lbas := Target(v, t, Find(v, d, path).value); Mixed(d, lbas, Padded(data, |lbas|), e)
    ensures v.Holds(e)
    ensures ChainOf(v, e, Find(v, d, path).value.cluster) == Some(ChainAt(t, Find(v, d, path).value.cluster))
  {
    hide WellFormed, Find, ChainLbas, Padded, Mixed, ChainOf, OverwriteLog, SameHead, Agree;
    MixedOnly(v, d, t, path, data, e);
    OverwriteChain(v, d, t, path, data);
    AgreeHolds(v, d, e, Elements(ChainAt(t, Find(v, d, path).value.cluster)));
    EntryChain(v, d, e, t, Find(v, d, path).value);
  }

  /** Byte `j` of a file, where it is on the disk. */
  lemma ByteAt(v: Volume, d: Image, entry: Entry, chain: seq<nat>, j: nat)
    requires v.Holds(d) && v.AllIn(chain) && ChainOf(v, d, entry.cluster) == Some(chain) && j < entry.size
    requires FileBytes(v, d, entry, entry.size).Some?
    ensures |FileBytes(v, d, entry, entry.size).value| == entry.size && j / 512 < |ChainLbas(v, chain)|
    ensures ChainLbas(v, chain)[j / 512] < |d|
    ensures FileBytes(v, d, entry, entry.size).value[j] == d[ChainLbas(v, chain)[j / 512]][j % 512]
  {
    hide ChainOf, ChainLbas, Flat;
    FlatAt(GatherChain(v, d, chain), j);
  }

  /** The sectors `overwrite` writes are the first of the chain. */
  lemma TargetPart(v: Volume, t: Tree, entry: Entry, i: nat)
    requires v.spc > 0 && Needed(v, entry.size) <= |ChainAt(t, entry.cluster)| && i < |Target(v, t, entry)|
    ensures i < |ChainLbas(v, ChainAt(t, entry.cluster))|
    ensures ChainLbas(v, ChainAt(t, entry.cluster))[i] == Target(v, t, entry)[i]
  {
    hide ChainLbas, Needed;
    var chain, n := ChainAt(t, entry.cluster), Needed(v, entry.size);
    assert chain == chain[..n] + chain[n..];
    ChainLbasConcat(v, chain[..n], chain[n..]);
  }

  lemma TargetHolds(v: Volume, t: Tree, entry: Entry)
    requires v.spc > 0 && Needed(v, entry.size) <= |ChainAt(t, entry.cluster)|
    ensures entry.size <= 512 * |Target(v, t, entry)|
  {
    hide ChainLbas, Needed;
    ChainLbasLength(v, ChainAt(t, entry.cluster)[..Needed(v, entry.size)]);
    NeededHolds(v, entry.size);
  }

  lemma MixedReads(v: Volume, d: Image, e: Image, t: Tree, entry: Entry, before: seq<byte>, data: seq<byte>)
    returns (m: seq<byte>)
    requires v.Holds(d) && v.Holds(e) && entry.size > 0 && v.spc > 0
    requires Needed(v, entry.size) <= |ChainAt(t, entry.cluster)|
    requires v.AllIn(ChainAt(t, entry.cluster))
    requires ChainOf(v, d, entry.cluster) == Some(ChainAt(t, entry.cluster))
    requires ChainOf(v, e, entry.cluster) == Some(ChainAt(t, entry.cluster))
    requires var lbas := Target(v, t, entry); Mixed(d, lbas, Padded(data, |lbas|), e)
    requires FileBytes(v, d, entry, entry.size) == Some(before)
    ensures FileBytes(v, e, entry, entry.size) == Some(m) && Mixture(before, data, m)
  {
    hide ChainLbas, Needed, ChainOf, FileBytes, Target;
    var chain := ChainAt(t, entry.cluster);
    StillReads(v, d, e, entry, chain);
    m := FileBytes(v, e, entry, entry.size).value;
    var lbas := Target(v, t, entry);
    TargetHolds(v, t, entry);
    SizeOf(v, d, entry, chain);
    SizeOf(v, e, entry, chain);
    forall s: nat
      ensures SameSector(before, m, s) || SameSector(data, m, s)
    {
      if !SameSector(before, m, s) {
        forall j | 0 <= j < |m| && j / 512 == s
          ensures m[j] == ByteOf(data, j)
        {
          SectorRead(v, d, e, t, entry, chain, before, data, m, s, j);
        }
      }
    }
  }

  /** A sector that is not all old is new. */
  lemma SectorRead(v: Volume, d: Image, e: Image, t: Tree, entry: Entry, chain: seq<nat>, before: seq<byte>,
      data: seq<byte>, m: seq<byte>, s: nat, j: nat)
    requires v.Holds(d) && v.Holds(e) && entry.size > 0 && v.spc > 0 && chain == ChainAt(t, entry.cluster)
    requires Needed(v, entry.size) <= |chain| && v.AllIn(chain)
    requires ChainOf(v, d, entry.cluster) == Some(chain) == ChainOf(v, e, entry.cluster)
    requires var lbas := Target(v, t, entry);
             entry.size <= 512 * |lbas| && Mixed(d, lbas, Padded(data, |lbas|), e)
    requires FileBytes(v, d, entry, entry.size) == Some(before) && FileBytes(v, e, entry, entry.size) == Some(m)
    requires |m| == |before| == entry.size && j < |m| && j / 512 == s && !SameSector(before, m, s)
    ensures m[j] == ByteOf(data, j)
  {
    hide ChainLbas, Needed, ChainOf, FileBytes, Target;
    var lbas := Target(v, t, entry);
    var i :| 0 <= i < |m| && i / 512 == s && m[i] != ByteOf(before, i);
    ByteAt(v, d, entry, chain, i);
    ByteAt(v, e, entry, chain, i);
    ByteAt(v, e, entry, chain, j);
    TargetPart(v, t, entry, s);
    assert e[lbas[s]] == Padded(data, |lbas|)[s] == PadSector(data, s);
    assert m[j] == e[lbas[s]][j % 512];
  }

  lemma SizeOf(v: Volume, d: Image, entry: Entry, chain: seq<nat>)
    requires v.Holds(d) && ChainOf(v, d, entry.cluster) == Some(chain) && FileBytes(v, d, entry, entry.size).Some?
    ensures |FileBytes(v, d, entry, entry.size).value| == entry.size
  {
    hide ChainOf, Bytes;
  }

  lemma StillReads(v: Volume, d: Image, e: Image, entry: Entry, chain: seq<nat>)
    requires v.Holds(d) && v.Holds(e) && v.AllIn(chain)
    requires ChainOf(v, d, entry.cluster) == Some(chain) == ChainOf(v, e, entry.cluster)
    requires FileBytes(v, d, entry, entry.size).Some?
    ensures FileBytes(v, e, entry, entry.size).Some?
  {
    hide ChainOf, Bytes;
    BytesLength(v, d, chain);
    BytesLength(v, e, chain);
  }
}
