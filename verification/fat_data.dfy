/** File contents: chains grouped into runs, read and overwritten in place. */
module FatData {
  import opened Base
  import opened Blocks
  import opened FatLayout
  import opened FatChain
  import opened Streams

  /** The largest transfer, in sectors. */
  const RUN_SECTORS: nat := 128

  datatype Run = Run(lba: nat, sectors: nat)

  /** The sectors of some runs, in order. */
  ghost function Spans(runs: seq<Run>): (r: seq<nat>) {
    if runs == [] then []
    else Spans(runs[..|runs| - 1]) + Span(runs[|runs| - 1].lba, runs[|runs| - 1].sectors)
  }

  lemma SpansNone()
    ensures Spans([]) == []
  {
  }

  lemma SpansSnoc(runs: seq<Run>, run: Run)
    ensures Spans(runs + [run]) == Spans(runs) + Span(run.lba, run.sectors)
  {
    assert (runs + [run])[..|runs|] == runs;
  }

  lemma {:induction false} SpansPrefix(runs: seq<Run>, i: nat)
    requires i <= |runs|
    ensures |Spans(runs[..i])| <= |Spans(runs)|
    ensures Spans(runs)[..|Spans(runs[..i])|] == Spans(runs[..i])
  {
    if i < |runs| {
      SpansPrefix(runs[..|runs| - 1], i);
      assert runs[..|runs| - 1][..i] == runs[..i];
    } else {
      assert runs[..i] == runs;
    }
  }

  ghost predicate Small(v: Volume, runs: seq<Run>) {
    forall i | 0 <= i < |runs| :: 0 < runs[i].sectors && (runs[i].sectors <= RUN_SECTORS || runs[i].sectors == v.spc)
  }

  /** `runs` groups the clusters `done`, the last run being `count` clusters
      that end with `last`. */
  ghost predicate Grouped(v: Volume, done: seq<nat>, runs: seq<Run>, last: nat, count: nat, perRun: nat) {
    && Spans(runs) == ChainLbas(v, done)
    && Small(v, runs)
    && (runs != [] ==>
          && 0 < count <= perRun && v.InRange(last)
          && runs[|runs| - 1].sectors == Times(count, v.spc)
          && runs[|runs| - 1].lba + runs[|runs| - 1].sectors == v.Lba(last) + v.spc)
  }

  lemma ClusterSpan(v: Volume, done: seq<nat>, cluster: nat)
    ensures ChainLbas(v, done + [cluster]) == ChainLbas(v, done) + Span(v.Lba(cluster), v.spc)
  {
    ChainLbasConcat(v, done, [cluster]);
    assert ChainLbas(v, [cluster]) == Span(v.Lba(cluster), v.spc);
  }

  lemma GroupNew(v: Volume, done: seq<nat>, runs: seq<Run>, last: nat, count: nat, perRun: nat, cluster: nat)
    requires v.Ok() && v.InRange(cluster) && perRun > 0
    requires Grouped(v, done, runs, last, count, perRun)
    ensures Grouped(v, done + [cluster], runs + [Run(v.Lba(cluster), v.spc)], cluster, 1, perRun)
  {
    ClusterSpan(v, done, cluster);
    SpansSnoc(runs, Run(v.Lba(cluster), v.spc));
    assert Times(1, v.spc) == v.spc + Times(0, v.spc);
  }

  lemma GroupMore(v: Volume, done: seq<nat>, runs: seq<Run>, count: nat, perRun: nat, cluster: nat)
    requires v.Ok() && v.InRange(cluster) && cluster > 2 && runs != [] && count < perRun
    requires perRun == 1 || Times(perRun, v.spc) <= RUN_SECTORS
    requires Grouped(v, done, runs, cluster - 1, count, perRun)
    ensures Grouped(v, done + [cluster], runs[|runs| - 1 := Run(runs[|runs| - 1].lba,
            runs[|runs| - 1].sectors + v.spc)],
                    cluster, count + 1, perRun)
  {
    hide ChainLbas, Spans;
    ClusterSpan(v, done, cluster);
    TimesMono(count + 1, perRun, v.spc);
    var n := |runs| - 1;
    var grown := Run(runs[n].lba, runs[n].sectors + v.spc);
    assert Span(grown.lba, grown.sectors) == Span(runs[n].lba, runs[n].sectors) + Span(v.Lba(cluster), v.spc);
    assert runs[n := grown] == runs[..n] + [grown] && runs == runs[..n] + [runs[n]];
    SpansSnoc(runs[..n], grown);
    SpansSnoc(runs[..n], runs[n]);
    Associates(Spans(runs[..n]), Span(runs[n].lba, runs[n].sectors), Span(v.Lba(cluster), v.spc));
  }

  /** The clusters of a full run. */
  function PerRun(v: Volume): (r: nat)
    requires v.Ok()
    ensures r > 0 && (r == 1 || Times(r, v.spc) <= RUN_SECTORS)
  {
    var whole := RUN_SECTORS / v.spc;
    TimesFormula(whole, v.spc);
    if whole > 1 then whole else 1
  }

  /** Grouping loses nothing: the runs span the chain's sectors, in order, and none
      is longer than RUN_SECTORS unless it is one cluster. */
  method Runs(v: Volume, chain: seq<nat>) returns (runs: seq<Run>)
    requires v.Ok() && v.AllIn(chain)
    ensures Spans(runs) == ChainLbas(v, chain)
    ensures Small(v, runs)
  {
    hide Grouped, ChainLbas, Spans, Small, Times, PerRun;
    var perRun := PerRun(v);
    GroupNone(v, perRun);
    runs := [];
    var last, count: nat := 0, 0;
    for i := 0 to |chain|
      invariant Grouped(v, chain[..i], runs, last, count, perRun)
    {
      var cluster := chain[i];
      assert chain[..i + 1] == chain[..i] + [cluster];
      GroupedIs(v, chain[..i], runs, last, count, perRun);
      if runs != [] && last + 1 == cluster && count < perRun {
        GroupMore(v, chain[..i], runs, count, perRun, cluster);
        runs := runs[|runs| - 1 := Run(runs[|runs| - 1].lba, runs[|runs| - 1].sectors + v.spc)];
        last, count := cluster, count + 1;
      } else {
        GroupNew(v, chain[..i], runs, last, count, perRun, cluster);
        runs := runs + [Run(v.Lba(cluster), v.spc)];
        last, count := cluster, 1;
      }
    }
    assert chain[..|chain|] == chain;
    GroupedIs(v, chain, runs, last, count, perRun);
  }

  lemma GroupNone(v: Volume, perRun: nat)
    ensures Grouped(v, [], [], 0, 0, perRun)
  {
  }

  lemma GroupedIs(v: Volume, done: seq<nat>, runs: seq<Run>, last: nat, count: nat, perRun: nat)
    requires Grouped(v, done, runs, last, count, perRun)
    ensures Spans(runs) == ChainLbas(v, done) && Small(v, runs)
    ensures runs != [] ==> v.InRange(last)
  {
  }

  // ---- Writing ----------------------------------------------------------------------------------

  function Min(a: nat, b: nat): nat {
    if a < b then a else b
  }

  /** Sector `i` of `data` followed by zeros. */
  function PadSector(data: seq<byte>, i: nat): Sector {
    seq(512, j requires 0 <= j < 512 => if 512 * i + j < |data| then data[512 * i + j] else 0)
  }

  /** `data` cut into `n` sectors, zeros after it. */
  function Padded(data: seq<byte>, n: nat): (r: seq<Sector>)
    ensures |r| == n
  {
    seq(n, i requires 0 <= i < n => PadSector(data, i))
  }

  /** Where run `i` of a grouped chain lies: its sectors are the next ones. */
  lemma RunAt(v: Volume, d: Image, chain: seq<nat>, runs: seq<Run>, i: nat)
    requires v.Holds(d) && v.AllIn(chain) && Spans(runs) == ChainLbas(v, chain) && i < |runs|
    ensures var lbas, done := ChainLbas(v, chain), |Spans(runs[..i])|;
            && |Spans(runs[..i + 1])| == done + runs[i].sectors <= |lbas|
            && lbas[done..done + runs[i].sectors] == Span(runs[i].lba, runs[i].sectors)
            && (runs[i].sectors > 0 ==> runs[i].lba + runs[i].sectors <= |d|)
  {
    hide Spans, ChainLbas, Owns;
    var lbas, done, n := ChainLbas(v, chain), |Spans(runs[..i])|, runs[i].sectors;
    assert runs[..i + 1] == runs[..i] + [runs[i]];
    SpansSnoc(runs[..i], runs[i]);
    SpansPrefix(runs, i + 1);
    SlicePart(lbas, Spans(runs[..i]), Span(runs[i].lba, n));
    if n > 0 {
      assert lbas[done + n - 1] == lbas[done..done + n][n - 1] == runs[i].lba + n - 1;
      var j := ChainOwner(v, chain, done + n - 1);
      OwnedInside(v, d, chain[j], lbas[done + n - 1]);
    }
  }

  lemma SlicePart<T>(s: seq<T>, a: seq<T>, b: seq<T>)
    requires a + b <= s
    ensures s[|a|..|a| + |b|] == b
  {
    assert s[..|a + b|] == a + b;
  }

  /** `piece` cut into its `n` sectors. */
  ghost function Cut(piece: seq<byte>, n: nat): (r: seq<Sector>)
    requires |piece| == 512 * n
    ensures |r| == n
  {
    seq(n, k requires 0 <= k < n => piece[512 * k..512 * k + 512])
  }

  /** One run of `WriteClusters`: the sectors from `lba` on, one by one. */
  method WriteRun(disk: Disk, lba: nat, n: nat, piece: seq<byte>)
    requires |piece| == 512 * n && (n > 0 ==> lba + n <= |disk.sectors|)
    modifies disk
    ensures Went(old(disk.sectors), old(disk.log), disk.sectors, disk.log, Puts(Span(lba, n), Cut(piece, n)))
  {
    ghost var d0, log0 := disk.sectors, disk.log;
    ghost var w := Puts(Span(lba, n), Cut(piece, n));
    hide Replay;
    WentNone(d0, log0);
    assert w[..0] == [];
    for k := 0 to n
      invariant Went(d0, log0, disk.sectors, disk.log, w[..k])
    {
      assert w[..k + 1] == w[..k] + [w[k]];
      WentPut(d0, log0, disk.sectors, disk.log, w[..k], w[k]);
      disk.Write(lba + k, piece[512 * k..512 * k + 512]);
    }
    assert w[..n] == w;
  }

  /** The log gains one write for each sector of the chain, in chain order, of
      `data` padded with zeros, and no other. */
  method WriteClusters(v: Volume, disk: Disk, chain: seq<nat>, data: seq<byte>)
    requires v.Holds(disk.sectors) && v.AllIn(chain)
    modifies disk
    ensures var lbas := ChainLbas(v, chain);
            Went(old(disk.sectors), old(disk.log), disk.sectors, disk.log, Puts(lbas, Padded(data, |lbas|)))
  {
    hide Spans, ChainLbas, Replay, Padded, Piece, Cut;
    ghost var d0, log0 := disk.sectors, disk.log;
    ghost var lbas := ChainLbas(v, chain);
    ghost var w := Puts(lbas, Padded(data, |lbas|));
    var runs := Runs(v, chain);
    var written: nat := 0;
    WentNone(d0, log0);
    assert Spans(runs[..0]) == [] && w[..0] == [] by {
      SpansNone();
    }
    for i := 0 to |runs|
      invariant written == 512 * |Spans(runs[..i])| && |Spans(runs[..i])| <= |lbas|
      invariant Went(d0, log0, disk.sectors, disk.log, w[..|Spans(runs[..i])|])
    {
      ghost var done := |Spans(runs[..i])|;
      RunAt(v, d0, chain, runs, i);
      var n := runs[i].sectors;
      var piece := Piece(data, written, n);
      ghost var part := Puts(Span(runs[i].lba, n), Cut(piece, n));
      PiecePadded(data, done, n, |lbas|);
      assert w[done..done + n] == part by {
        assert lbas[done..done + n] == Span(runs[i].lba, n);
      }
      assert w[..done + n] == w[..done] + part;
      ghost var d, log := disk.sectors, disk.log;
      WriteRun(disk, runs[i].lba, n, piece);
      WentOn(d0, log0, d, log, w[..done], disk.sectors, disk.log, part);
      written := written + n * 512;
    }
    assert runs[..|runs|] == runs && w[..|w|] == w;
  }

  /** The bytes of `data` at `written`, filled up with zeros to `n` sectors. */
  function Piece(data: seq<byte>, written: nat, n: nat): (r: seq<byte>)
    ensures |r| == 512 * n
  {
    var from := Min(written, |data|);
    var to := Min(written + n * 512, |data|);
    data[from..to] + seq(n * 512 - (to - from), _ => 0)
  }

  lemma PiecePadded(data: seq<byte>, done: nat, n: nat, all: nat)
    requires done + n <= all
    ensures Cut(Piece(data, 512 * done, n), n) == Padded(data, all)[done..done + n]
  {
    forall k | 0 <= k < n
      ensures Cut(Piece(data, 512 * done, n), n)[k] == PadSector(data, done + k)
    {
      var piece := Piece(data, 512 * done, n);
      assert piece[512 * k..512 * k + 512] == PadSector(data, done + k);
    }
  }

  /** After `WriteClusters` the chain's bytes are the data, then zeros. */
  lemma PaddedFlat(data: seq<byte>, n: nat)
    requires |data| <= 512 * n
    ensures Flat(Padded(data, n)) == data + seq(512 * n - |data|, _ => 0)
  {
    forall i | 0 <= i < 512 * n
      ensures Flat(Padded(data, n))[i] == (data + seq(512 * n - |data|, _ => 0))[i]
    {
      FlatAt(Padded(data, n), i);
    }
  }

  // ---- Reading ----------------------------------------------------------------------------------

  datatype Entry = Entry(cluster: nat, size: nat, directory: bool)

  ghost function Bytes(v: Volume, d: Image, chain: seq<nat>): (r: seq<byte>)
    requires v.Holds(d) && v.AllIn(chain)
  {
    Flat(GatherChain(v, d, chain))
  }

  ghost function GatherChain(v: Volume, d: Image, chain: seq<nat>): (r: seq<Sector>)
    requires v.Holds(d) && v.AllIn(chain)
    ensures |r| == |ChainLbas(v, chain)|
    ensures forall i | 0 <= i < |r| :: ChainLbas(v, chain)[i] < |d| && r[i] == d[ChainLbas(v, chain)[i]]
  {
    LbasInside(v, d, chain);
    Gather(d, ChainLbas(v, chain))
  }

  lemma LbasInside(v: Volume, d: Image, chain: seq<nat>)
    requires v.Holds(d) && v.AllIn(chain)
    ensures forall i | 0 <= i < |ChainLbas(v, chain)| :: v.dataStart <= ChainLbas(v, chain)[i] < |d|
  {
    forall i | 0 <= i < |ChainLbas(v, chain)|
      ensures v.dataStart <= ChainLbas(v, chain)[i] < |d|
    {
      var j := ChainOwner(v, chain, i);
      OwnedInside(v, d, chain[j], ChainLbas(v, chain)[i]);
    }
  }

  /** What a file holds: the first `size` bytes of its chain, or None when the
      chain is broken or too short. */
  ghost function FileBytes(v: Volume, d: Image, entry: Entry, limit: nat): (r: Option<seq<byte>>)
    requires v.Holds(d)
  {
    var left := Min(limit, entry.size);
    if left == 0 then Some([])
    else
      var chain := ChainOf(v, d, entry.cluster);
      if chain.None? then None
      else
        ChainOfExact(v, d, entry.cluster, chain.value);
        var bytes := Bytes(v, d, chain.value);
        if |bytes| < left then None else Some(bytes[..left])
  }

  /** No chunk is larger than a run. */
  ghost predicate InBuffer(v: Volume, chunks: seq<seq<byte>>) {
    forall i | 0 <= i < |chunks| :: |chunks[i]| <= 512 * RUN_SECTORS || |chunks[i]| <= 512 * v.spc
  }

  ghost predicate Fed(v: Volume, all: seq<byte>, chunks: seq<seq<byte>>, n: nat) {
    n <= |all| && Joined(chunks) == all[..n] && InBuffer(v, chunks)
  }

  lemma FeedMore(v: Volume, all: seq<byte>, chunks: seq<seq<byte>>, n: nat, bytes: seq<byte>, used: nat)
    requires Fed(v, all, chunks, n) && used <= |bytes| && n + |bytes| <= |all| && all[n..n + |bytes|] == bytes
    requires |bytes| <= 512 * RUN_SECTORS || |bytes| <= 512 * v.spc
    ensures Fed(v, all, chunks + [bytes[..used]], n + used)
  {
    JoinedSnoc(chunks, bytes[..used]);
    assert all[..n + used] == all[..n] + bytes[..used];
  }

  lemma FlatPrefix(all: seq<Sector>, n: nat)
    requires n <= |all|
    ensures Flat(all[..n]) == Flat(all)[..512 * n]
  {
    assert all == all[..n] + all[n..];
    FlatConcat(all[..n], all[n..]);
  }

  lemma FlatPart(all: seq<Sector>, done: nat, next: nat)
    requires done <= next <= |all|
    ensures Flat(all[done..next]) == Flat(all)[512 * done..512 * next]
  {
    FlatPrefix(all, next);
    FlatPrefix(all[..next], done);
    assert all[..next][..done] == all[..done];
    assert all[..next] == all[..done] + all[done..next];
    FlatConcat(all[..done], all[done..next]);
  }

  method ReadRun(disk: Disk, run: Run) returns (bytes: seq<byte>)
    requires run.sectors > 0 ==> run.lba + run.sectors <= |disk.sectors|
    ensures bytes == Flat(Gather(disk.sectors, Span(run.lba, run.sectors)))
  {
    ghost var part := Gather(disk.sectors, Span(run.lba, run.sectors));
    var buffer: seq<Sector> := [];
    for k := 0 to run.sectors
      invariant buffer == part[..k]
    {
      buffer := buffer + [disk.sectors[run.lba + k]];
    }
    assert part[..run.sectors] == part;
    bytes := Flat(buffer);
  }

  /** The first `used` bytes of the next run follow what was taken so far. */
  lemma TakeRun(v: Volume, d: Image, chain: seq<nat>, runs: seq<Run>, i: nat)
    requires v.Holds(d) && v.AllIn(chain) && Spans(runs) == ChainLbas(v, chain) && i < |runs|
    ensures var done, n := |Spans(runs[..i])|, runs[i].sectors;
            && |Spans(runs[..i + 1])| == done + n && 512 * (done + n) <= |Bytes(v, d, chain)|
            && (n > 0 ==> runs[i].lba + n <= |d|)
            && Flat(Gather(d, Span(runs[i].lba, n))) == Bytes(v, d, chain)[512 * done..512 * (done + n)]
  {
    hide Spans, ChainLbas, Flat;
    RunAt(v, d, chain, runs, i);
    var done, n := |Spans(runs[..i])|, runs[i].sectors;
    var all := GatherChain(v, d, chain);
    FlatPart(all, done, done + n);
    forall k | 0 <= k < n
      ensures Gather(d, Span(runs[i].lba, n))[k] == all[done..done + n][k]
    {
      assert ChainLbas(v, chain)[done..done + n][k] == ChainLbas(v, chain)[done + k];
    }
    assert Gather(d, Span(runs[i].lba, n)) == all[done..done + n];
  }

  /** The loop of `EachChunk`, over the runs of an accepted chain. */
  method FeedRuns(v: Volume, disk: Disk, chain: seq<nat>, want: nat) returns (ok: bool, chunks: seq<seq<byte>>)
    requires v.Holds(disk.sectors) && v.AllIn(chain) && want > 0
    ensures ok <==> want <= |Bytes(v, disk.sectors, chain)|
    ensures ok ==> Joined(chunks) == Bytes(v, disk.sectors, chain)[..want]
    ensures InBuffer(v, chunks)
  {
    hide ChainLbas, Flat;
    ghost var d := disk.sectors;
    ghost var all := Bytes(v, d, chain);
    var runs := Runs(v, chain);
    chunks := [];
    var left := want;
    ghost var done := 0;
    for i := 0 to |runs|
      invariant done == 512 * |Spans(runs[..i])|
      invariant left > 0 && left + done == want && Fed(v, all, chunks, done)
    {
      TakeRun(v, d, chain, runs, i);
      var bytes := ReadRun(disk, runs[i]);
      var used := Min(|bytes|, left);
      FeedMore(v, all, chunks, done, bytes, used);
      chunks := chunks + [bytes[..used]];
      left := left - used;
      if left == 0 {
        return true, chunks;
      }
      done := done + |bytes|;
    }
    assert runs[..|runs|] == runs;
    ok := false;
  }

  /** The pieces handed out make `FileBytes`, none of them larger than the buffer;
      it fails exactly when the file's clusters do not hold that many bytes. */
  method EachChunk(v: Volume, disk: Disk, entry: Entry, limit: nat) returns (ok: bool, chunks: seq<seq<byte>>)
    requires v.Holds(disk.sectors)
    ensures ok <==> !entry.directory && FileBytes(v, disk.sectors, entry, limit).Some?
    ensures ok ==> Joined(chunks) == FileBytes(v, disk.sectors, entry, limit).value
    ensures InBuffer(v, chunks)
  {
    if entry.directory {
      return false, [];
    }
    var left := Min(limit, entry.size);
    if left == 0 {
      return true, [];
    }
    var found := Chain(v, disk, entry.cluster);
    if found.None? {
      return false, [];
    }
    ChainOfExact(v, disk.sectors, entry.cluster, found.value);
    ok, chunks := FeedRuns(v, disk, found.value, left);
  }

  /** The log gains the writes of `OverwriteLog`: the sectors of the clusters the size
      needs, with `data` and then zeros. It fails, writing nothing, exactly when the
      entry is a directory, the data is larger than the file, or the chain is
      broken or too short. */
  method Overwrite(v: Volume, disk: Disk, entry: Entry, data: seq<byte>) returns (ok: bool)
    requires v.Holds(disk.sectors)
    modifies disk
    ensures ok <==> OverwriteLog(v, old(disk.sectors), entry, data).Some?
    ensures !ok ==> disk.sectors == old(disk.sectors) && disk.log == old(disk.log)
    ensures ok ==> Went(old(disk.sectors), old(disk.log), disk.sectors, disk.log,
                        OverwriteLog(v, old(disk.sectors), entry, data).value)
  {
    if entry.directory || |data| > entry.size {
      return false;
    }
    var chain := Chain(v, disk, entry.cluster);
    if chain.None? {
      return false;
    }
    ChainOfExact(v, disk.sectors, entry.cluster, chain.value);
    var needed := Needed(v, entry.size);
    if |chain.value| < needed {
      return false;
    }
    WriteClusters(v, disk, chain.value[..needed], data);
    ok := true;
  }

  /** The clusters it takes to hold `size` bytes. */
  function Needed(v: Volume, size: nat): nat
    requires v.spc > 0
  {
    (size + v.spc * 512 - 1) / (v.spc * 512)
  }

  /** The writes of `Overwrite`, or None when it refuses. */
  ghost function OverwriteLog(v: Volume, d: Image, entry: Entry, data: seq<byte>): Option<seq<Event>>
    requires v.Holds(d)
  {
    var chain := ChainOf(v, d, entry.cluster);
    if entry.directory || |data| > entry.size || chain.None? || |chain.value| < Needed(v, entry.size) then None
    else
      var lbas := ChainLbas(v, chain.value[..Needed(v, entry.size)]);
      Some(Puts(lbas, Padded(data, |lbas|)))
  }
}
