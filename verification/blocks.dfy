/** The block device under the file system: 512-byte sectors, written one at a
    time, with a ghost log of what was written and where the barriers fell. */
module Blocks {
  import opened Base

  const SECTOR: nat := 512

  type Sector = s: seq<byte> | |s| == 512 witness seq(512, _ => 0)
  type Image = seq<Sector>

  /** One atomic step of the device: a sector written, or a cache flush. */
  datatype Event = Put(lba: nat, data: Sector) | Barrier

  ghost function Apply(d: Image, e: Event): (r: Image)
    ensures |r| == |d|
  {
    if e.Put? && e.lba < |d| then d[e.lba := e.data] else d
  }

  /** The image after every event of `log`, in order. */
  ghost function Replay(d: Image, log: seq<Event>): (r: Image)
    ensures |r| == |d|
  {
    if log == [] then d else Apply(Replay(d, log[..|log| - 1]), log[|log| - 1])
  }

  lemma {:induction false} ReplayConcat(d: Image, a: seq<Event>, b: seq<Event>)
    ensures Replay(d, a + b) == Replay(Replay(d, a), b)
  {
    if b == [] {
      assert a + b == a;
    } else {
      var n := |b| - 1;
      assert (a + b)[..|a + b| - 1] == a + b[..n];
      ReplayConcat(d, a, b[..n]);
    }
  }

  /** A prefix of two logs in a row is a prefix of the first, or all of the
      first and a prefix of the second. */
  lemma PrefixSplit(d: Image, a: seq<Event>, b: seq<Event>, k: nat)
    requires k <= |a| + |b|
    ensures k <= |a| ==> Replay(d, (a + b)[..k]) == Replay(d, a[..k])
    ensures k >= |a| ==> Replay(d, (a + b)[..k]) == Replay(Replay(d, a), b[..k - |a|])
  {
    if k <= |a| {
      assert (a + b)[..k] == a[..k];
    }
    if k >= |a| {
      assert (a + b)[..k] == a + b[..k - |a|];
      ReplayConcat(d, a, b[..k - |a|]);
    }
  }

  lemma PrefixPast(d: Image, a: seq<Event>, b: seq<Event>, k: nat)
    requires k <= |b|
    ensures Replay(d, (a + b)[..|a| + k]) == Replay(Replay(d, a), b[..k])
  {
    assert (a + b)[..|a| + k] == a + b[..k];
    ReplayConcat(d, a, b[..k]);
  }

  /** A sector no event of the log writes keeps its bytes. */
  lemma {:induction false} ReplayUntouched(d: Image, log: seq<Event>, s: nat)
    requires s < |d|
    requires forall i | 0 <= i < |log| :: log[i].Put? ==> log[i].lba != s
    ensures Replay(d, log)[s] == d[s]
  {
    if log != [] {
      ReplayUntouched(d, log[..|log| - 1], s);
    }
  }

  /** The writes of `data[i]` to `lbas[i]`, in order. */
  ghost function Puts(lbas: seq<nat>, data: seq<Sector>): (r: seq<Event>)
    requires |lbas| == |data|
    ensures |r| == |lbas|
  {
    seq(|lbas|, i requires 0 <= i < |lbas| => Put(lbas[i], data[i]))
  }

  ghost predicate Distinct<T(!new)>(s: seq<T>) {
    forall i, j | 0 <= i < j < |s| :: s[i] != s[j]
  }

  /** Writing distinct sectors leaves each with what was written to it. */
  lemma {:induction false} ReplayPuts(d: Image, lbas: seq<nat>, data: seq<Sector>)
    requires |lbas| == |data| && Distinct(lbas)
    requires forall i | 0 <= i < |lbas| :: lbas[i] < |d|
    ensures forall i | 0 <= i < |lbas| :: Replay(d, Puts(lbas, data))[lbas[i]] == data[i]
  {
    if lbas != [] {
      var n := |lbas| - 1;
      assert Puts(lbas, data)[..n] == Puts(lbas[..n], data[..n]);
      ReplayPuts(d, lbas[..n], data[..n]);
      forall i | 0 <= i < |lbas|
        ensures Replay(d, Puts(lbas, data))[lbas[i]] == data[i]
      {
        if i < n {
          assert lbas[..n][i] == lbas[i] && data[..n][i] == data[i];
        }
      }
    }
  }

  class Disk {
    var sectors: Image
    ghost var log: seq<Event>

    constructor (image: Image)
      ensures sectors == image && log == []
    {
      sectors := image;
      log := [];
    }

    method Write(lba: nat, data: Sector)
      requires lba < |sectors|
      modifies this
      ensures sectors == old(sectors)[lba := data]
      ensures log == old(log) + [Put(lba, data)]
    {
      sectors := sectors[lba := data];
      log := log + [Put(lba, data)];
    }

    method Flush()
      modifies this
      ensures sectors == old(sectors) && log == old(log) + [Barrier]
    {
      log := log + [Barrier];
    }
  }

  lemma Associates<T>(a: seq<T>, b: seq<T>, c: seq<T>)
    ensures a + b + c == a + (b + c)
  {
  }

  /** From image `d0`, the device went through the events `w` and is now at `d1`. */
  ghost predicate Went(d0: Image, log0: seq<Event>, d1: Image, log1: seq<Event>, w: seq<Event>) {
    log1 == log0 + w && d1 == Replay(d0, w)
  }

  lemma WentNone(d0: Image, log0: seq<Event>)
    ensures Went(d0, log0, d0, log0, [])
  {
    assert log0 + [] == log0;
  }

  /** One more event. */
  lemma WentPut(d0: Image, log0: seq<Event>, d: Image, log: seq<Event>, w: seq<Event>, e: Event)
    requires Went(d0, log0, d, log, w)
    ensures Went(d0, log0, Apply(d, e), log + [e], w + [e])
  {
    assert (w + [e])[..|w|] == w;
    Associates(log0, w, [e]);
  }

  lemma WentOn(d0: Image, log0: seq<Event>, d1: Image, log1: seq<Event>, w1: seq<Event>, d2: Image, log2: seq<Event>,
      w2: seq<Event>)
    requires Went(d0, log0, d1, log1, w1) && Went(d1, log1, d2, log2, w2)
    ensures Went(d0, log0, d2, log2, w1 + w2)
  {
    hide Replay;
    ReplayConcat(d0, w1, w2);
    Associates(log0, w1, w2);
  }
}
