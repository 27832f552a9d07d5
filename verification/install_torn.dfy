/** An overwritten file on a disk that may lose writes: every mixture of its old
    and its new sectors may be what is left. */
module InstallTorn {
  import opened Base
  import opened Blocks
  import opened Crashes
  import opened FatLayout
  import opened FatChain
  import opened FatData
  import opened FatTree
  import opened FatSlots
  import opened FatWrite
  import opened FatOverwrite
  import opened InstallCrash

  /** What is left of some writes when those that `pick` names are done and the
      others lost. */
  ghost function Picked(d: Image, w: seq<Event>, pick: nat -> bool): (e: Image)
    ensures |e| == |d|
  {
    if w == [] then d
    else
      var n := |w| - 1;
      var e := Picked(d, w[..n], pick);
      if pick(n) then Apply(e, w[n]) else e
  }

  lemma {:induction false} PickedSurvives(d: Image, w: seq<Event>, pick: nat -> bool)
    requires NoBarrier(w)
    ensures Survives(d, w, Picked(d, w, pick))
  {
    if w != [] {
      PickedSurvives(d, w[..|w| - 1], pick);
    }
  }

  lemma {:induction false} PickedAt(d: Image, lbas: seq<nat>, data: seq<Sector>, k: nat, pick: nat -> bool, i: nat)
    requires |lbas| == |data| && Distinct(lbas) && k <= |lbas| && i < |lbas| && lbas[i] < |d|
    ensures Picked(d, Puts(lbas, data)[..k], pick)[lbas[i]] == if i < k && pick(i) then data[i] else d[lbas[i]]
  {
    if k > 0 {
      var w := Puts(lbas, data);
      assert w[..k][..k - 1] == w[..k - 1] && w[..k][k - 1] == Put(lbas[k - 1], data[k - 1]);
      PickedAt(d, lbas, data, k - 1, pick, i);
    }
  }

  /** Whatever the mixture, a stop at the end of an overwrite may leave it. */
  lemma MixtureSurvives(v: Volume, d: Image, t: Tree, path: Path, before: seq<byte>, data: seq<byte>, m: seq<byte>)
    returns (e: Image)
    requires Overwritable(v, d, t, path, data) && Contents(v, d, path) == Some(File(before)) && Mixture(before, data, m)
    ensures Survives(d, OverwriteLog(v, d, Find(v, d, path).value, data).value, e)
    ensures v.Holds(e) && Contents(v, e, path) == Some(File(m))
  {
    hide WellFormed, Find, Padded, Survives, Mixed, ChainLbas, OverwriteLog, FileBytes, Puts, Needed, ChainOf, SamePath,
      Picked, NoBarrier;
    var entry := Find(v, d, path).value;
    var w := OverwriteLog(v, d, entry, data).value;
    OverwriteChain(v, d, t, path, data);
    var chain, lbas := ChainAt(t, entry.cluster), Target(v, t, entry);
    var pick := (s: nat) => !SameSector(before, m, s);
    assert NoBarrier(w) by {
      PutsOnly(lbas, Padded(data, |lbas|));
    }
    e := Picked(d, w, pick);
    PickedSurvives(d, w, pick);
    assert w[..|w|] == w;
    LostMixed(v, d, t, path, data, |w|, e);
    LostElsewhere(v, d, t, path, data, |w|, e, path);
    LostHead(v, d, t, path, data, e);
    TargetIs(v, d, t, entry);
    FindOk(v, d, t, path);
    FileReads(v, d, t, entry);
    StillReads(v, d, e, entry, chain);
    SizeOf(v, d, entry, chain);
    SizeOf(v, e, entry, chain);
    var now := FileBytes(v, e, entry, entry.size).value;
    forall j | 0 <= j < |m|
      ensures now[j] == m[j]
    {
      PickedByte(v, d, t, entry, chain, lbas, before, data, m, pick, e, j);
    }
    assert now == m;
  }

  lemma PutsOnly(lbas: seq<nat>, data: seq<Sector>)
    requires |lbas| == |data|
    ensures NoBarrier(Puts(lbas, data)) && |Puts(lbas, data)| == |lbas|
  {
  }

  lemma PickedByte(v: Volume, d: Image, t: Tree, entry: Entry, chain: seq<nat>, lbas: seq<nat>, before: seq<byte>,
      data: seq<byte>, m: seq<byte>, pick: nat -> bool, e: Image, j: nat)
    requires v.Holds(d) && v.Holds(e) && v.spc > 0 && chain == ChainAt(t, entry.cluster)
    requires Needed(v, entry.size) <= |chain| && v.AllIn(chain) && lbas == Target(v, t, entry)
    requires ChainOf(v, d, entry.cluster) == Some(chain) == ChainOf(v, e, entry.cluster)
    requires Distinct(lbas) && entry.size <= 512 * |lbas| && forall i | 0 <= i < |lbas| :: lbas[i] < |d|
    requires e == Picked(d, Puts(lbas, Padded(data, |lbas|)), pick)
    requires FileBytes(v, d, entry, entry.size) == Some(before) && FileBytes(v, e, entry, entry.size).Some?
    requires Mixture(before, data, m) && |before| == entry.size && j < |m|
    requires forall s: nat :: pick(s) == !SameSector(before, m, s)
    ensures |FileBytes(v, e, entry, entry.size).value| == |m| && FileBytes(v, e, entry, entry.size).value[j] == m[j]
  {
    hide ChainLbas, Needed, ChainOf, FileBytes, Target, Picked, Puts;
    var s := j / 512;
    ByteAt(v, d, entry, chain, j);
    ByteAt(v, e, entry, chain, j);
    TargetPart(v, t, entry, s);
    var w := Puts(lbas, Padded(data, |lbas|));
    assert w[..|lbas|] == w;
    PickedAt(d, lbas, Padded(data, |lbas|), |lbas|, pick, s);
    assert SameSector(before, m, s) || SameSector(data, m, s);
    assert Padded(data, |lbas|)[s] == PadSector(data, s) && PadSector(data, s)[j % 512] == ByteOf(data, j);
  }

  lemma TargetIs(v: Volume, d: Image, t: Tree, entry: Entry)
    requires v.Holds(d) && v.spc > 0 && Needed(v, entry.size) <= |ChainAt(t, entry.cluster)|
    requires v.AllIn(ChainAt(t, entry.cluster)) && Distinct(ChainAt(t, entry.cluster))
    ensures var lbas := Target(v, t, entry);
            && Distinct(lbas) && entry.size <= 512 * |lbas| && forall i | 0 <= i < |lbas| :: lbas[i] < |d|
  {
    hide ChainLbas, Needed;
    var front := ChainAt(t, entry.cluster)[..Needed(v, entry.size)];
    assert v.AllIn(front) && Distinct(front);
    ChainLbasDistinct(v, front);
    LbasInside(v, d, front);
    TargetHolds(v, t, entry);
  }
}
