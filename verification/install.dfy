/** `install`: the kernel into the slot that is not running, flushed, read back
    and hashed; then one digit of limine.conf. */
module Install {
  import opened Base
  import opened Blocks
  import opened Crashes
  import opened BootText
  import opened FatLayout
  import opened FatChain
  import opened FatData
  import opened FatTree
  import opened FatFrame
  import opened FatFind
  import opened FatSlots
  import opened FatEnter
  import opened FatWrite
  import opened FatOverwrite
  import opened InstallCrash
  import opened Streams
  import opened Sha256s

  const READ_LIMIT: nat := 0x10_0000

  /** The part of a manifest an installation depends on. */
  datatype Manifest = Manifest(build: seq<byte>, kernel: seq<nat>, size: nat, sha256: seq<byte>)

  // ---- The three files --------------------------------------------------------------------------

  const BOOT: Name := [0x62, 0x6F, 0x6F, 0x74]
  const LIMINE: Name := [0x6C, 0x69, 0x6D, 0x69, 0x6E, 0x65]
  const LIMINE_CONF: Name := [0x6C, 0x69, 0x6D, 0x69, 0x6E, 0x65, 0x2E, 0x63, 0x6F, 0x6E, 0x66]

  /** "kernel-a" or "kernel-b". */
  function Kernel(s: Slot): Name {
    [0x6B, 0x65, 0x72, 0x6E, 0x65, 0x6C, 0x2D, if s == A then 0x61 else 0x62]
  }

  function SlotText(s: Slot): seq<nat> {
    [SLASH] + BOOT + [SLASH] + Kernel(s)
  }

  const CONF_TEXT: seq<nat> := [SLASH] + BOOT + [SLASH] + LIMINE + [SLASH] + LIMINE_CONF

  function SlotPath(s: Slot): Path {
    Parts(SlotText(s))
  }

  function ConfPath(): Path {
    Parts(CONF_TEXT)
  }

  lemma PartsSnoc(text: seq<nat>, name: Name)
    requires SLASH !in name && name != []
    ensures Parts(text + [SLASH] + name) == Parts(text) + [name]
  {
    assert (text + [SLASH])[..|text|] == text;
    CutPlain(text + [SLASH], name);
  }

  lemma PathsAre()
    ensures forall s :: SlotPath(s) == [BOOT, Kernel(s)]
    ensures ConfPath() == [BOOT, LIMINE, LIMINE_CONF]
  {
    hide Parts;
    NoParts();
    PartsSnoc([], BOOT);
    assert [] + [SLASH] + BOOT == [SLASH] + BOOT;
    forall s: Slot
      ensures SlotPath(s) == [BOOT, Kernel(s)]
    {
      PartsSnoc([SLASH] + BOOT, Kernel(s));
    }
    PartsSnoc([SLASH] + BOOT, LIMINE);
    PartsSnoc([SLASH] + BOOT + [SLASH] + LIMINE, LIMINE_CONF);
  }

  lemma NoParts()
    ensures Parts([]) == []
  {
  }

  /** The names of the two slots are not equal up to case. */
  ghost predicate SlotsApart(v: Volume) {
    !v.SameName(Kernel(A), Kernel(B)) && !v.SameName(Kernel(B), Kernel(A))
  }

  lemma FilesApart(v: Volume, s: Slot)
    requires SlotsApart(v)
    ensures !SamePath(v, SlotPath(s), SlotPath(Other(s))) && !SamePath(v, SlotPath(s), ConfPath())
    ensures !SamePath(v, ConfPath(), SlotPath(s))
  {
    PathsAre();
    assert SlotPath(s)[1] == Kernel(s) && SlotPath(Other(s))[1] == Kernel(Other(s));
  }

  // ---- Safe at every stop -----------------------------------------------------------------------

  /** Slot `s` holds the whole kernel the manifest describes. */
  ghost predicate Holding(v: Volume, e: Image, s: Slot, kernel: seq<byte>, manifest: Manifest, compress: Compress)
    requires v.Holds(e)
  {
    && |kernel| == manifest.size && Digest(compress, kernel) == manifest.sha256
    && exists n: nat :: Contents(v, e, SlotPath(s)) == Some(File(kernel + Zeros(n)))
  }

  /** An image a stop may leave: every path but two reads as before, the target's
      file is a mixture of what it was and the kernel, and limine.conf reads as
      before, or has been switched to a slot that holds the verified kernel
      whole. */
  ghost predicate SafeAt(v: Volume, d: Image, t: Tree, e: Image, target: Slot, kernel: seq<byte>, manifest: Manifest,
      compress: Compress)
    requires v.Holds(d)
  {
    && WellFormed(v, e, t) && v.Holds(e)
    && (forall q | !SamePath(v, q, SlotPath(target))
        && !SamePath(v, q, ConfPath()) :: Contents(v, e, q) == Contents(v, d, q))
    && MixedFile(v, d, e, SlotPath(target), kernel)
    && (Contents(v, e, ConfPath()) == Contents(v, d, ConfPath())
        || (&& Holding(v, e, target, kernel, manifest, compress)
            && exists text :: Contents(v, d, ConfPath()) == Some(File(text))
                && Contents(v, e, ConfPath()) == Some(File(Switched(text, target)))))
  }

  /** Whatever was lost of the writes `w`, wherever they stopped. */
  ghost predicate SafeAlways(v: Volume, d: Image, t: Tree, w: seq<Event>, target: Slot, kernel: seq<byte>,
      manifest: Manifest, compress: Compress)
    requires v.Holds(d)
  {
    forall k, e | 0 <= k <= |w| && Survives(d, w[..k], e) :: SafeAt(v, d, t, e, target, kernel, manifest, compress)
  }

  lemma SafeNone(v: Volume, d: Image, t: Tree, target: Slot, kernel: seq<byte>, manifest: Manifest, compress: Compress)
    requires WellFormed(v, d, t) && v.Holds(d)
    ensures SafeAlways(v, d, t, [], target, kernel, manifest, compress)
  {
    hide WellFormed, Contents, Parts, Digest, Switched, SamePath, Holding, SlotPath, ConfPath, MixedFile;
    MixedSelf(v, d, SlotPath(target), kernel);
  }

  /** The kernel being written: the other files read as before. */
  lemma SafeKernel(v: Volume, d: Image, t: Tree, w1: seq<Event>, k: nat, e: Image, target: Slot, kernel: seq<byte>,
      manifest: Manifest, compress: Compress)
    requires SlotsApart(v) && Overwritable(v, d, t, SlotPath(target), kernel)
    requires w1 == OverwriteLog(v, d, Find(v, d, SlotPath(target)).value, kernel).value && k <= |w1|
    requires Survives(d, w1[..k], e)
    ensures v.Holds(d) && SafeAt(v, d, t, e, target, kernel, manifest, compress)
  {
    hide WellFormed, Contents, Parts, Digest, Switched, SamePath, Holding, Survives, Find, OverwriteLog, SlotsApart,
      SlotPath, ConfPath, MixedFile;
    FilesApart(v, target);
    LostFile(v, d, t, SlotPath(target), kernel, k, e);
    forall q
      ensures v.Holds(e) && WellFormed(v, e, t)
      ensures (!SamePath(v, q, SlotPath(target)) ==> Contents(v, e, q) == Contents(v, d, q))
    {
      LostElsewhere(v, d, t, SlotPath(target), kernel, k, e, q);
    }
  }

  /** The disk once the kernel is written and flushed. */
  ghost predicate KernelDone(v: Volume, d: Image, t: Tree, d1: Image, target: Slot, kernel: seq<byte>,
      manifest: Manifest, compress: Compress)
    requires v.Holds(d)
  {
    && WellFormed(v, d1, t) && v.Holds(d1) && Holding(v, d1, target, kernel, manifest, compress)
    && MixedFile(v, d, d1, SlotPath(target), kernel)
    && (forall q :: Find(v, d1, q) == Find(v, d, q))
    && (forall q | !SamePath(v, q, SlotPath(target)) :: Contents(v, d1, q) == Contents(v, d, q))
  }

  lemma KernelWritten(v: Volume, d: Image, t: Tree, w1: seq<Event>, target: Slot, kernel: seq<byte>, manifest: Manifest,
      compress: Compress)
    requires Overwritable(v, d, t, SlotPath(target), kernel) && |kernel| == manifest.size
    requires Digest(compress, kernel) == manifest.sha256
    requires w1 == OverwriteLog(v, d, Find(v, d, SlotPath(target)).value, kernel).value
    ensures v.Holds(d) && KernelDone(v, d, t, Replay(d, w1), target, kernel, manifest, compress)
  {
    hide WellFormed, Contents, Parts, Digest, SamePath, Find, OverwriteLog, SlotPath, Replay, MixedFile, Survives;
    var entry := Find(v, d, SlotPath(target)).value;
    assert w1[..|w1|] == w1;
    SurvivesWhole(d, w1);
    LostFile(v, d, t, SlotPath(target), kernel, |w1|, Replay(d, w1));
    forall q
      ensures v.Holds(Replay(d, w1)) && WellFormed(v, Replay(d, w1), t) && Find(v, Replay(d, w1), q) == Find(v, d, q)
      ensures !SamePath(v, q, SlotPath(target)) ==> Contents(v, Replay(d, w1), q) == Contents(v, d, q)
    {
      OverwriteKeeps(v, d, t, SlotPath(target), kernel, |w1|, q);
    }
    OverwriteKeeps(v, d, t, SlotPath(target), kernel, |w1|, SlotPath(target));
    assert seq(entry.size - |kernel|, _ => 0) == Zeros(entry.size - |kernel|);
  }

  /** The switch being written: limine.conf is as it was, or switched. */
  lemma SafeConf(v: Volume, d: Image, t: Tree, d1: Image, text: seq<byte>, w2: seq<Event>, k: nat, e: Image,
      target: Slot, kernel: seq<byte>, manifest: Manifest, compress: Compress)
    requires SlotsApart(v) && v.Holds(d) && KernelDone(v, d, t, d1, target, kernel, manifest, compress)
    requires Switching(v, d, d1, t, text, target)
    requires w2 == OverwriteLog(v, d1, Find(v, d1, ConfPath()).value, Switched(text, target)).value && k <= |w2|
    requires Survives(d1, w2[..k], e)
    ensures SafeAt(v, d, t, e, target, kernel, manifest, compress)
  {
    hide WellFormed, Contents, Parts, Digest, Switched, SamePath, Survives, Find, OverwriteLog, SlotsApart, SlotPath,
      ConfPath;
    FilesApart(v, target);
    forall q
      ensures v.Holds(e) && WellFormed(v, e, t)
      ensures (!SamePath(v, q, ConfPath()) ==> Contents(v, e, q) == Contents(v, d1, q))
    {
      LostElsewhere(v, d1, t, ConfPath(), Switched(text, target), k, e, q);
    }
    OneDigit(text, target);
    var at := DigitAt(text, target);
    OneByte(v, d1, t, ConfPath(), text, Switched(text, target), at, k, e);
    HoldingStays(v, d1, e, target, kernel, manifest, compress);
    assert MixedFile(v, d, e, SlotPath(target), kernel);
  }

  lemma HoldingStays(v: Volume, d: Image, e: Image, target: Slot, kernel: seq<byte>, manifest: Manifest,
      compress: Compress)
    requires v.Holds(d) && v.Holds(e) && Contents(v, e, SlotPath(target)) == Contents(v, d, SlotPath(target))
    ensures Holding(v, d, target, kernel, manifest, compress) ==> Holding(v, e, target, kernel, manifest, compress)
  {
    hide Contents, SlotPath, Digest;
  }

  /** What is written to limine.conf: the text with one digit changed, or as it
      was. */
  ghost predicate Switching(v: Volume, d: Image, d1: Image, t: Tree, text: seq<byte>, target: Slot)
    requires v.Holds(d)
  {
    && Overwritable(v, d1, t, ConfPath(), Switched(text, target))
    && Contents(v, d, ConfPath()) == Some(File(text)) && Contents(v, d1, ConfPath()) == Some(File(text))
    && |text| == Find(v, d1, ConfPath()).value.size
    && HasLine(text, target)
  }

  predicate HasLine(text: seq<byte>, target: Slot) {
    FirstOf(text, Line(target), 0).Some? || FirstOf(text, Line(Other(target)), 0).Some?
  }

  ghost function DigitAt(text: seq<byte>, target: Slot): nat {
    var at := FirstOf(text, Line(Other(target)), 0);
    if at.Some? then at.value + 15 else 0
  }

  lemma OneDigit(text: seq<byte>, target: Slot)
    requires HasLine(text, target)
    ensures |Switched(text, target)| == |text|
    ensures forall i | 0 <= i < |text| && i != DigitAt(text, target) :: Switched(text, target)[i] == text[i]
  {
    hide FirstOf;
    if FirstOf(text, Line(target), 0).None? {
      SwitchedByte(text, target);
    }
  }

  // ---- The two commits --------------------------------------------------------------------------

  lemma BarrierStays(d: Image, w: seq<Event>)
    ensures Replay(d, w + [Barrier]) == Replay(d, w)
  {
    assert (w + [Barrier])[..|w|] == w;
  }

  lemma BarrierSurvives(d: Image, w: seq<Event>, e: Image)
    requires Survives(d, w + [Barrier], e)
    ensures e == Replay(d, w)
  {
    assert (w + [Barrier])[..|w|] == w;
  }

  /** The kernel's writes and their flush. */
  lemma FirstCommit(v: Volume, d: Image, t: Tree, w1: seq<Event>, target: Slot, kernel: seq<byte>, manifest: Manifest,
      compress: Compress)
    requires SlotsApart(v) && Overwritable(v, d, t, SlotPath(target), kernel)
    requires w1 == OverwriteLog(v, d, Find(v, d, SlotPath(target)).value, kernel).value
    ensures v.Holds(d) && SafeAlways(v, d, t, w1 + [Barrier], target, kernel, manifest, compress)
  {
    hide Survives, SafeAt, Overwritable, Find, OverwriteLog, SlotPath, Replay, SlotsApart, Digest;
    var w := w1 + [Barrier];
    SafeKernel(v, d, t, w1, |w1|, Replay(d, w1), target, kernel, manifest, compress) by {
      SurvivesWhole(d, w1);
      assert w1[..|w1|] == w1;
    }
    forall k, e | 0 <= k <= |w| && Survives(d, w[..k], e)
      ensures SafeAt(v, d, t, e, target, kernel, manifest, compress)
    {
      if k <= |w1| {
        assert w[..k] == w1[..k];
        SafeKernel(v, d, t, w1, k, e, target, kernel, manifest, compress);
      } else {
        assert w[..k] == w;
        BarrierSurvives(d, w1, e);
      }
    }
  }

  /** Then the switch, and its flush. */
  lemma SecondCommit(v: Volume, d: Image, t: Tree, w1: seq<Event>, text: seq<byte>, w2: seq<Event>, target: Slot,
      kernel: seq<byte>, manifest: Manifest, compress: Compress)
    requires SlotsApart(v) && v.Holds(d) && SafeAlways(v, d, t, w1 + [Barrier], target, kernel, manifest, compress)
    requires var d1 := Replay(d, w1);
             && KernelDone(v, d, t, d1, target, kernel, manifest, compress) && Switching(v, d, d1, t, text, target)
             && w2 == OverwriteLog(v, d1, Find(v, d1, ConfPath()).value, Switched(text, target)).value && NoBarrier(w2)
    ensures SafeAlways(v, d, t, w1 + [Barrier] + (w2 + [Barrier]), target, kernel, manifest, compress)
  {
    hide Survives, SafeAt, Overwritable, Find, OverwriteLog, SlotPath, Replay, SlotsApart, Digest, KernelDone,
      Switching, Switched, ConfPath;
    var first, d1 := w1 + [Barrier], Replay(d, w1);
    var w := first + (w2 + [Barrier]);
    SafeConf(v, d, t, d1, text, w2, |w2|, Replay(d1, w2), target, kernel, manifest, compress) by {
      SurvivesWhole(d1, w2);
      assert w2[..|w2|] == w2;
    }
    forall k, e | 0 <= k <= |w| && Survives(d, w[..k], e)
      ensures SafeAt(v, d, t, e, target, kernel, manifest, compress)
    {
      if k <= |first| {
        assert w[..k] == first[..k];
      } else if k <= |first| + |w2| {
        assert w[..k] == first + w2[..k - |first|];
        SurvivesAfter(d, w1, w2[..k - |first|], e);
        SafeConf(v, d, t, d1, text, w2, k - |first|, e, target, kernel, manifest, compress);
      } else {
        assert w[..k] == first + w2 + [Barrier];
        BarrierSurvives(d, first + w2, e);
        ReplayConcat(d, first, w2);
        BarrierStays(d, w1);
      }
    }
  }

  // ---- install ----------------------------------------------------------------------------------

  /** A file read whole, when it is not too large. */
  method ReadWhole(v: Volume, disk: Disk, entry: Entry) returns (r: Option<seq<byte>>)
    requires v.Holds(disk.sectors)
    ensures r == if entry.directory
            || entry.size > READ_LIMIT then None else FileBytes(v, disk.sectors, entry, entry.size)
  {
    hide FileBytes, Joined;
    if entry.size > READ_LIMIT {
      return None;
    }
    var ok, chunks := EachChunk(v, disk, entry, entry.size);
    r := if ok then Some(Joined(chunks)) else None;
  }

  /** The text of limine.conf, when `install` can read it. */
  ghost function ConfText(v: Volume, d: Image, isText: seq<byte> -> bool): Option<seq<byte>>
    requires v.Holds(d)
  {
    var conf := Find(v, d, ConfPath());
    if conf.None? || conf.value.directory || conf.value.size > READ_LIMIT then None
    else
      var bytes := FileBytes(v, d, conf.value, conf.value.size);
      if bytes.Some? && isText(bytes.value) then bytes else None
  }

  /** What must hold for `install` to write the kernel. */
  ghost predicate Acceptable(v: Volume, d: Image, target: Slot, kernel: seq<byte>, manifest: Manifest,
      compress: Compress)
    requires v.Holds(d)
  {
    && |kernel| == manifest.size && Digest(compress, kernel) == manifest.sha256
    && var slot := Find(v, d, SlotPath(target)); slot.Some? && OverwriteLog(v, d, slot.value, kernel).Some?
  }

  /** What must hold for it to succeed. */
  ghost predicate Installable(v: Volume, d: Image, target: Slot, kernel: seq<byte>, manifest: Manifest,
      compress: Compress, isText: seq<byte> -> bool)
    requires v.Holds(d)
  {
    && Acceptable(v, d, target, kernel, manifest, compress)
    && var text := ConfText(v, d, isText);
       text.Some? && HasLine(text.value, target) && isText(Switched(text.value, target))
  }

  /** What `install` writes: the kernel and a flush, then, when limine.conf has one
      of the lines, the text with the target's and a flush. */
  ghost function InstallLog(v: Volume, d: Image, target: Slot, kernel: seq<byte>, manifest: Manifest,
      compress: Compress, isText: seq<byte> -> bool): seq<Event>
    requires v.Holds(d)
  {
    if !Acceptable(v, d, target, kernel, manifest, compress) then []
    else
      var w := OverwriteLog(v, d, Find(v, d, SlotPath(target)).value, kernel).value;
      w + [Barrier] + SwitchLog(v, d, Replay(d, w), target, isText)
  }

  ghost function SwitchLog(v: Volume, d: Image, d1: Image, target: Slot, isText: seq<byte> -> bool): seq<Event>
    requires v.Holds(d) && v.Holds(d1)
  {
    var text, conf := ConfText(v, d, isText), Find(v, d1, ConfPath());
    if text.None? || !HasLine(text.value, target) || conf.None? then []
    else
      var w := OverwriteLog(v, d1, conf.value, Switched(text.value, target));
      if w.None? then [] else w.value + [Barrier]
  }

  lemma InstallLogIs(v: Volume, d: Image, target: Slot, kernel: seq<byte>, manifest: Manifest, compress: Compress,
      isText: seq<byte> -> bool)
    requires v.Holds(d)
    ensures var w := InstallLog(v, d, target, kernel, manifest, compress, isText);
            if !Acceptable(v, d, target, kernel, manifest, compress) then w == []
            else
              var w1 := OverwriteLog(v, d, Find(v, d, SlotPath(target)).value, kernel).value;
              w != [] && v.Holds(Replay(d, w1)) && w == w1 + [Barrier] + SwitchLog(v, d, Replay(d, w1), target, isText)
  {
    hide Digest, Find, SlotPath, OverwriteLog, SwitchLog;
  }

  lemma SwitchLogIs(v: Volume, d: Image, d1: Image, target: Slot, isText: seq<byte> -> bool)
    requires v.Holds(d) && v.Holds(d1)
    ensures var text, conf, w := ConfText(v, d, isText), Find(v, d1, ConfPath()), SwitchLog(v, d, d1, target, isText);
            if text.None? || !HasLine(text.value, target) || conf.None?
               || OverwriteLog(v, d1, conf.value, Switched(text.value, target)).None? then w == []
            else w == OverwriteLog(v, d1, conf.value, Switched(text.value, target)).value + [Barrier]
  {
    hide Find, ConfPath, OverwriteLog, ConfText, HasLine, Switched;
  }

  /** Hashes a file's first `n` bytes back from the disk. */
  method HashBack(v: Volume, disk: Disk, slot: Entry, n: nat, compress: Compress) returns (r: Option<seq<byte>>)
    requires v.Holds(disk.sectors)
    ensures r == if slot.directory || FileBytes(v, disk.sectors, slot, n).None? then None
                 else Some(Digest(compress, FileBytes(v, disk.sectors, slot, n).value))
  {
    hide FileBytes, Digest, Joined;
    var ok, chunks := EachChunk(v, disk, slot, n);
    if !ok {
      return None;
    }
    var hash := HashPieces(compress, chunks);
    r := Some(hash);
  }

  lemma FrontBytes(v: Volume, d: Image, entry: Entry, n: nat)
    requires v.Holds(d) && n <= entry.size && FileBytes(v, d, entry, entry.size).Some?
    ensures |FileBytes(v, d, entry, entry.size).value| == entry.size
    ensures FileBytes(v, d, entry, n) == Some(FileBytes(v, d, entry, entry.size).value[..n])
  {
    hide ChainOf, Bytes, IsChain;
    var all := FileBytes(v, d, entry, entry.size).value;
    if n > 0 {
      ChainOfExact(v, d, entry.cluster, ChainOf(v, d, entry.cluster).value);
      AllOf(v, d, entry.cluster, ChainOf(v, d, entry.cluster).value);
      var bytes := Bytes(v, d, ChainOf(v, d, entry.cluster).value);
      assert all == bytes[..entry.size] && bytes[..entry.size][..n] == bytes[..n];
    } else {
      assert all[..0] == [];
    }
  }

  /** The kernel reads back as it was written. */
  lemma ReadBackKernel(v: Volume, d: Image, t: Tree, path: Path, kernel: seq<byte>)
    requires Overwritable(v, d, t, path, kernel)
    ensures v.Holds(d)
    ensures var entry := Find(v, d, path).value;
            var e := Replay(d, OverwriteLog(v, d, entry, kernel).value);
            v.Holds(e) && !entry.directory && FileBytes(v, e, entry, |kernel|) == Some(kernel)
  {
    hide WellFormed, Find, OverwriteLog, FileBytes, Replay;
    var entry := Find(v, d, path).value;
    OverwriteReads(v, d, t, path, kernel);
    OverwriteChain(v, d, t, path, kernel);
    FrontBytes(v, Replay(d, OverwriteLog(v, d, entry, kernel).value), entry, |kernel|);
  }

  /** limine.conf as it is after the kernel was written, and what is switched. */
  lemma ConfAfter(v: Volume, d: Image, t: Tree, d1: Image, target: Slot, kernel: seq<byte>, manifest: Manifest,
      compress: Compress, isText: seq<byte> -> bool)
    requires SlotsApart(v) && WellFormed(v, d, t) && v.Holds(d)
    requires KernelDone(v, d, t, d1, target, kernel, manifest, compress)
    ensures v.Holds(d1) && WellFormed(v, d1, t) && Find(v, d1, ConfPath()) == Find(v, d, ConfPath())
    ensures var conf := Find(v, d, ConfPath());
            conf.Some? && !conf.value.directory ==>
              && FileBytes(v, d1, conf.value, conf.value.size) == FileBytes(v, d, conf.value, conf.value.size)
              && FileBytes(v, d, conf.value, conf.value.size).Some?
              && |FileBytes(v, d, conf.value, conf.value.size).value| == conf.value.size
    ensures ConfText(v, d, isText).Some? ==>
              var text := ConfText(v, d, isText).value;
              && Find(v, d, ConfPath()).Some? && !Find(v, d, ConfPath()).value.directory
                  && Find(v, d, ConfPath()).value.size <= READ_LIMIT
              && FileBytes(v, d, Find(v, d, ConfPath()).value, Find(v, d, ConfPath()).value.size) == Some(text)
                  && isText(text)
              && (HasLine(text, target) ==> Switching(v, d, d1, t, text, target))
  {
    hide WellFormed, Find, OverwriteLog, FileBytes, SlotPath, ConfPath, Holding, SlotsApart, SamePath, Digest, EntryOk,
      HasLine, Switched;
    FilesApart(v, target);
    var conf := Find(v, d, ConfPath());
    assert Contents(v, d1, ConfPath()) == Contents(v, d, ConfPath());
    if conf.Some? && !conf.value.directory {
      FindFile(v, d, ConfPath());
      FindOk(v, d, t, ConfPath());
      FindOk(v, d1, t, ConfPath());
      FileReads(v, d, t, conf.value);
      FileReads(v, d1, t, conf.value);
      FrontBytes(v, d, conf.value, 0);
      var text := FileBytes(v, d, conf.value, conf.value.size).value;
      if HasLine(text, target) {
        OneDigit(text, target);
        SizeOk(v, d1, t, conf.value, Switched(text, target));
      }
    }
  }

  /** Data no larger than a file is not refused. */
  lemma SizeOk(v: Volume, d: Image, t: Tree, entry: Entry, data: seq<byte>)
    requires WellFormed(v, d, t) && v.Holds(d) && EntryOk(v, t, entry) && !entry.directory && |data| <= entry.size
    ensures OverwriteLog(v, d, entry, data).Some?
  {
    hide WellFormed, ChainLbas, Needed, ChainOf, SameHead, Fat;
    HeadSelf(v, d);
    EntryChain(v, d, d, t, entry);
    NeededHolds(v, entry.size);
    SizeFits(v, t, entry);
  }

  lemma SizeFits(v: Volume, t: Tree, entry: Entry)
    requires v.spc > 0 && EntryOk(v, t, entry) && !entry.directory
    ensures Needed(v, entry.size) <= |ChainAt(t, entry.cluster)|
  {
    hide ChainLbas, Needed;
    var chain, n := ChainAt(t, entry.cluster), Needed(v, entry.size);
    NeededHolds(v, entry.size);
    ChainLbasLength(v, chain);
    if n > |chain| {
      TimesMono(|chain|, n - 1, v.spc);
    }
  }

  predicate HasTarget(text: seq<byte>, target: Slot) {
    FirstOf(text, Line(target), 0).Some?
  }

  /** The text with the target's line in it, or nothing when neither line is
      there. */
  method SwitchText(text: seq<byte>, target: Slot) returns (r: Option<seq<byte>>)
    ensures r == if HasLine(text, target) then Some(Switched(text, target)) else None
    ensures r.Some? ==> HasTarget(r.value, target)
  {
    hide FirstOf;
    if HasLine(text, target) {
      TargetThere(text, target);
    }
    var wanted := FirstOf(text, Line(target), 0);
    var switched := text;
    if wanted.None? {
      var at := FirstOf(text, Line(Other(target)), 0);
      if at.Some? {
        switched := text[..at.value] + Line(target) + text[at.value + 16..];
      }
    }
    r := if HasTarget(switched, target) && |switched| == |text| then Some(switched) else None;
  }

  lemma TargetThere(text: seq<byte>, target: Slot)
    requires HasLine(text, target)
    ensures HasTarget(Switched(text, target), target) && |Switched(text, target)| == |text|
  {
    hide FirstOf;
    OneDigit(text, target);
    if FirstOf(text, Line(target), 0).None? {
      var i, after := FirstOf(text, Line(Other(target)), 0).value, Switched(text, target);
      assert after[i..i + 16] == Line(target);
      FirstAt(after, Line(target), i);
    }
  }

  lemma OtherIs(s: Slot)
    ensures Other(s) == if s == A then B else A
  {
  }

  lemma AcceptableIs(v: Volume, d: Image, target: Slot, kernel: seq<byte>, manifest: Manifest, compress: Compress,
      isText: seq<byte> -> bool)
    requires v.Holds(d)
    ensures Acceptable(v, d, target, kernel, manifest, compress) <==>
              && |kernel| == manifest.size && Digest(compress, kernel) == manifest.sha256
              && Find(v, d, SlotPath(target)).Some?
                  && OverwriteLog(v, d, Find(v, d, SlotPath(target)).value, kernel).Some?
    ensures Installable(v, d, target, kernel, manifest, compress, isText) <==>
              && Acceptable(v, d, target, kernel, manifest, compress)
              && ConfText(v, d, isText).Some? && HasLine(ConfText(v, d, isText).value, target)
              && isText(Switched(ConfText(v, d, isText).value, target))
  {
    hide Digest, Find, SlotPath, OverwriteLog, ConfText, HasLine, Switched;
  }

  lemma OnePiece(kernel: seq<byte>)
    ensures Joined([kernel]) == kernel
  {
    assert [kernel][..0] == [];
    assert Joined([]) + kernel == kernel;
  }

  lemma FilePathsAre(s: Slot)
    ensures SlotPath(s) == Parts(SlotText(s)) && ConfPath() == Parts(CONF_TEXT)
  {
    hide Parts;
  }

  lemma IsOverwritable(v: Volume, d: Image, t: Tree, path: Path, data: seq<byte>)
    requires WellFormed(v, d, t) && v.Holds(d) && Find(v, d, path).Some?
    requires OverwriteLog(v, d, Find(v, d, path).value, data).Some?
    ensures Overwritable(v, d, t, path, data)
  {
    hide WellFormed, Find, OverwriteLog;
  }

  lemma WentBarrier(d0: Image, log0: seq<Event>, d1: Image, log1: seq<Event>, w: seq<Event>)
    requires Went(d0, log0, d1, log1, w)
    ensures Went(d0, log0, d1, log1 + [Barrier], w + [Barrier])
  {
    hide Replay;
    BarrierStays(d0, w);
    Associates(log0, w, [Barrier]);
  }

  lemma ConfTextIs(v: Volume, d: Image, isText: seq<byte> -> bool)
    requires v.Holds(d)
    ensures var conf := Find(v, d, ConfPath());
            ConfText(v, d, isText) ==
            if conf.None? || conf.value.directory || conf.value.size > READ_LIMIT then None
            else if FileBytes(v, d, conf.value, conf.value.size).Some?
                && isText(FileBytes(v, d, conf.value, conf.value.size).value)
            then FileBytes(v, d, conf.value, conf.value.size)
            else None
  {
    hide Find, ConfPath, FileBytes;
  }

  lemma SwitchingIs(v: Volume, d: Image, d1: Image, t: Tree, text: seq<byte>, target: Slot)
    requires v.Holds(d) && Switching(v, d, d1, t, text, target)
    ensures v.Holds(d1) && Find(v, d1, ConfPath()).Some?
    ensures OverwriteLog(v, d1, Find(v, d1, ConfPath()).value, Switched(text, target)).Some?
    ensures NoBarrier(OverwriteLog(v, d1, Find(v, d1, ConfPath()).value, Switched(text, target)).value)
  {
    hide WellFormed, Find, ConfPath, Switched, Contents, HasLine, ChainLbas, Padded, Needed, ChainOf;
  }

  /** After the last write: the file is switched, the kernel in place. */
  lemma SwitchedAt(v: Volume, d: Image, t: Tree, d1: Image, text: seq<byte>, w2: seq<Event>, target: Slot,
      kernel: seq<byte>, manifest: Manifest, compress: Compress)
    requires SlotsApart(v) && v.Holds(d) && KernelDone(v, d, t, d1, target, kernel, manifest, compress)
    requires Switching(v, d, d1, t, text, target)
    requires w2 == OverwriteLog(v, d1, Find(v, d1, ConfPath()).value, Switched(text, target)).value
    ensures var d2, conf := Replay(d1, w2), Find(v, d1, ConfPath()).value;
            && v.Holds(d2) && Holding(v, d2, target, kernel, manifest, compress)
            && Contents(v, d2, ConfPath()) == Some(File(Switched(text, target)))
            && FileBytes(v, d2, conf, conf.size) == Some(Switched(text, target))
  {
    hide WellFormed, Contents, Parts, Digest, Switched, SamePath, Find, OverwriteLog, SlotsApart, SlotPath, ConfPath,
      Replay, FileBytes;
    FilesApart(v, target);
    OneDigit(text, target);
    var d2, conf := Replay(d1, w2), Find(v, d1, ConfPath()).value;
    assert w2[..|w2|] == w2;
    OverwriteKeeps(v, d1, t, ConfPath(), Switched(text, target), |w2|, SlotPath(target));
    OverwriteReads(v, d1, t, ConfPath(), Switched(text, target));
    assert Switched(text, target) + seq<byte>(0, _ => 0) == Switched(text, target);
    HoldingStays(v, d1, d2, target, kernel, manifest, compress);
  }

  lemma LastBarrier(a: seq<Event>, b: seq<Event>)
    ensures var w := a + (b + [Barrier]); w != [] && w[|w| - 1] == Barrier
  {
  }

  /** What `install` writes is safe: whatever the disk loses, wherever it stops,
      the running slot is never written, and limine.conf is only ever switched to
      a slot that holds the verified kernel whole. */
  lemma InstallSafe(v: Volume, d: Image, t: Tree, target: Slot, kernel: seq<byte>, manifest: Manifest,
      compress: Compress, isText: seq<byte> -> bool)
    requires WellFormed(v, d, t) && v.Holds(d) && SlotsApart(v)
    ensures var w := InstallLog(v, d, target, kernel, manifest, compress, isText);
            && SafeAlways(v, d, t, w, target, kernel, manifest, compress)
            && (w != [] <==> Acceptable(v, d, target, kernel, manifest, compress))
            && (w != [] ==> w[|w| - 1] == Barrier)
  {
    hide *;
    InstallLogIs(v, d, target, kernel, manifest, compress, isText);
    SafeNone(v, d, t, target, kernel, manifest, compress);
    AcceptableIs(v, d, target, kernel, manifest, compress, isText);
    if Acceptable(v, d, target, kernel, manifest, compress) {
      var w1 := OverwriteLog(v, d, Find(v, d, SlotPath(target)).value, kernel).value;
      var d1 := Replay(d, w1);
      IsOverwritable(v, d, t, SlotPath(target), kernel);
      FirstCommit(v, d, t, w1, target, kernel, manifest, compress);
      KernelWritten(v, d, t, w1, target, kernel, manifest, compress);
      ConfAfter(v, d, t, d1, target, kernel, manifest, compress, isText);
      SwitchLogIs(v, d, d1, target, isText);
      LastBarrier([], w1);
      assert [] + (w1 + [Barrier]) == w1 + [Barrier] == w1 + [Barrier] + [];
      var w := SwitchLog(v, d, d1, target, isText);
      if w != [] {
        var text := ConfText(v, d, isText).value;
        SwitchingIs(v, d, d1, t, text, target);
        var w2 := OverwriteLog(v, d1, Find(v, d1, ConfPath()).value, Switched(text, target)).value;
        SecondCommit(v, d, t, w1, text, w2, target, kernel, manifest, compress);
        LastBarrier(w1 + [Barrier], w2);
      }
    }
  }

  /** Once it is all written, the target holds the kernel and limine.conf is
      switched. */
  lemma InstallEnds(v: Volume, d: Image, t: Tree, target: Slot, kernel: seq<byte>, manifest: Manifest,
      compress: Compress, isText: seq<byte> -> bool)
    requires WellFormed(v, d, t) && v.Holds(d) && SlotsApart(v)
    requires Installable(v, d, target, kernel, manifest, compress, isText)
    ensures var e := Replay(d, InstallLog(v, d, target, kernel, manifest, compress, isText));
            && WellFormed(v, e, t) && v.Holds(e) && Holding(v, e, target, kernel, manifest, compress)
            && ConfText(v, d, isText).Some?
            && Contents(v, e, ConfPath()) == Some(File(Switched(ConfText(v, d, isText).value, target)))
            && Find(v, e, SlotPath(target)) == Find(v, d, SlotPath(target))
  {
    hide *;
    InstallLogIs(v, d, target, kernel, manifest, compress, isText);
    AcceptableIs(v, d, target, kernel, manifest, compress, isText);
    var w1 := OverwriteLog(v, d, Find(v, d, SlotPath(target)).value, kernel).value;
    var d1, text := Replay(d, w1), ConfText(v, d, isText).value;
    IsOverwritable(v, d, t, SlotPath(target), kernel);
    KernelWritten(v, d, t, w1, target, kernel, manifest, compress);
    ConfAfter(v, d, t, d1, target, kernel, manifest, compress, isText);
    SwitchLogIs(v, d, d1, target, isText);
    SwitchingIs(v, d, d1, t, text, target);
    var w2 := OverwriteLog(v, d1, Find(v, d1, ConfPath()).value, Switched(text, target)).value;
    SwitchedAt(v, d, t, d1, text, w2, target, kernel, manifest, compress);
    BarrierStays(d, w1);
    BarrierStays(d1, w2);
    ReplayConcat(d, w1 + [Barrier], w2 + [Barrier]);
    SwitchedTree(v, d, t, d1, text, w2, target, kernel, manifest, compress);
  }

  lemma SwitchedTree(v: Volume, d: Image, t: Tree, d1: Image, text: seq<byte>, w2: seq<Event>, target: Slot,
      kernel: seq<byte>, manifest: Manifest, compress: Compress)
    requires SlotsApart(v) && v.Holds(d) && KernelDone(v, d, t, d1, target, kernel, manifest, compress)
    requires Switching(v, d, d1, t, text, target)
    requires w2 == OverwriteLog(v, d1, Find(v, d1, ConfPath()).value, Switched(text, target)).value
    ensures var d2 := Replay(d1, w2);
            v.Holds(d2) && WellFormed(v, d2, t) && Find(v, d2, SlotPath(target)) == Find(v, d, SlotPath(target))
  {
    hide WellFormed, Contents, Digest, Switched, SamePath, Find, OverwriteLog, SlotsApart, SlotPath, ConfPath, Replay,
      MixedFile, Holding;
    assert w2[..|w2|] == w2;
    OverwriteKeeps(v, d1, t, ConfPath(), Switched(text, target), |w2|, SlotPath(target));
  }

  /** Succeeds exactly when `Installable` holds, and writes `InstallLog`. Whatever
      the disk loses, wherever it stops, the image is safe: the running slot is
      never written, and limine.conf is only ever switched to a slot that holds
      the verified kernel whole. */
  method Install(v: Volume, disk: Disk, running: Slot, kernel: seq<byte>, manifest: Manifest, compress: Compress,
      isText: seq<byte> -> bool, ghost t: Tree)
    returns (r: Option<Slot>, ghost w: seq<Event>)
    requires WellFormed(v, disk.sectors, t) && v.Holds(disk.sectors) && SlotsApart(v)
    modifies disk
    ensures Went(old(disk.sectors), old(disk.log), disk.sectors, disk.log, w)
    ensures w == InstallLog(v, old(disk.sectors), Other(running), kernel, manifest, compress, isText)
    ensures SafeAlways(v, old(disk.sectors), t, w, Other(running), kernel, manifest, compress)
    ensures r == if Installable(v, old(disk.sectors), Other(running), kernel, manifest, compress,
            isText) then Some(Other(running)) else None
    ensures w != [] ==>
              Acceptable(v, old(disk.sectors), Other(running), kernel, manifest, compress) && w[|w| - 1] == Barrier
    ensures r.Some? ==> var text := ConfText(v, old(disk.sectors), isText);
                        && text.Some? && v.Holds(disk.sectors)
                            && Holding(v, disk.sectors, Other(running), kernel, manifest, compress)
                        && Contents(v, disk.sectors, ConfPath()) == Some(File(Switched(text.value, Other(running))))
                        && w != []
  {
    hide *;
    ghost var d, log := disk.sectors, disk.log;
    var target := if running == A then B else A;
    OtherIs(running);
    r, w := None, [];
    WentNone(d, log);
    InstallSafe(v, d, t, target, kernel, manifest, compress, isText);
    InstallLogIs(v, d, target, kernel, manifest, compress, isText);
    AcceptableIs(v, d, target, kernel, manifest, compress, isText);
    if |kernel| != manifest.size {
      return;
    }
    var hash := HashPieces(compress, [kernel]);
    OnePiece(kernel);
    if hash != manifest.sha256 {
      return;
    }
    var slot := FindPath(v, disk, SlotText(target));
    FilePathsAre(target);
    if slot.None? {
      return;
    }
    var written := Overwrite(v, disk, slot.value, kernel);
    if !written {
      return;
    }
    ghost var w1 := OverwriteLog(v, d, slot.value, kernel).value;
    ghost var d1, log1 := disk.sectors, disk.log;
    WentTo(d, log, d1, log1, w1);
    IsOverwritable(v, d, t, SlotPath(target), kernel);
    KernelWritten(v, d, t, w1, target, kernel, manifest, compress);
    ReadBackKernel(v, d, t, SlotPath(target), kernel);
    ConfAfter(v, d, t, d1, target, kernel, manifest, compress, isText);
    disk.Flush();
    WentBarrier(d, log, d1, log1, w1);
    w := w1 + [Barrier];
    assert w + [] == w;
    SwitchLogIs(v, d, d1, target, isText);
    var back := HashBack(v, disk, slot.value, |kernel|, compress);
    if back != Some(manifest.sha256) {
      return;
    }
    var conf := FindPath(v, disk, CONF_TEXT);
    ConfTextIs(v, d, isText);
    if conf.None? {
      return;
    }
    var text := ReadWhole(v, disk, conf.value);
    if text.None? || !isText(text.value) {
      return;
    }
    var switched := SwitchText(text.value, target);
    if switched.None? {
      return;
    }
    assert Switching(v, d, d1, t, text.value, target);
    SwitchingIs(v, d, d1, t, text.value, target);
    var saved := Overwrite(v, disk, conf.value, switched.value);
    assert saved;
    ghost var w2 := OverwriteLog(v, d1, conf.value, switched.value).value;
    ghost var d2, log2 := disk.sectors, disk.log;
    WentTo(d1, log1 + [Barrier], d2, log2, w2);
    SwitchedAt(v, d, t, d1, text.value, w2, target, kernel, manifest, compress);
    disk.Flush();
    WentBarrier(d1, log1 + [Barrier], d2, log2, w2);
    WentOn(d, log, d1, log1 + [Barrier], w1 + [Barrier], d2, log2 + [Barrier], w2 + [Barrier]);
    w := w1 + [Barrier] + (w2 + [Barrier]);
    var again := ReadWhole(v, disk, conf.value);
    if again.None? || !isText(again.value) || !HasTarget(again.value, target) {
      return;
    }
    r := Some(target);
  }

  // ---- What that means for the next start -------------------------------------------------------

  /** The update theorem. If limine.conf boots the running slot, then after any
      stop, whatever the disk lost, it still boots the running slot, whose file
      is untouched, or it boots the other one, which holds the verified kernel
      whole. */
  lemma UpdateSafe(v: Volume, d: Image, t: Tree, w: seq<Event>, k: nat, e: Image, running: Slot, kernel: seq<byte>,
      manifest: Manifest, compress: Compress, text: seq<byte>)
    requires v.Holds(d) && SlotsApart(v) && SafeAlways(v, d, t, w, Other(running), kernel, manifest, compress)
    requires k <= |w| && Survives(d, w[..k], e)
    requires Contents(v, d, ConfPath()) == Some(File(text)) && Boots(text) == Some(running)
    ensures v.Holds(e) && Contents(v, e, SlotPath(running)) == Contents(v, d, SlotPath(running))
    ensures exists now: seq<byte> :: Contents(v, e, ConfPath()) == Some(File(now)) &&
              (Boots(now) == Some(running) || (Boots(now) == Some(Other(running))
                  && Holding(v, e, Other(running), kernel, manifest, compress)))
  {
    hide WellFormed, Contents, Parts, Digest, Switched, SamePath, Survives, SlotsApart, SlotPath, ConfPath, Holding,
      Boots;
    assert SafeAt(v, d, t, e, Other(running), kernel, manifest, compress);
    FilesApart(v, running);
    OtherTwice(running);
    SwitchedBoots(text, Other(running));
    if Contents(v, e, ConfPath()) != Contents(v, d, ConfPath()) {
      assert Contents(v, e, ConfPath()) == Some(File(Switched(text, Other(running))));
    }
  }

  lemma OtherTwice(s: Slot)
    ensures Other(Other(s)) == s
  {
  }

  /** A finished update boots the new slot exactly when limine.conf did not
      have its line already, below the one in force. */
  lemma UpdateTakesEffect(text: seq<byte>, running: Slot)
    requires Boots(text) == Some(running)
    ensures Boots(Switched(text, Other(running))) == Some(Other(running)) <==> !HasTarget(text, Other(running))
    ensures HasTarget(text, Other(running)) ==> Boots(Switched(text, Other(running))) == Some(running)
  {
    hide FirstOf, Boots, Switched;
    OtherTwice(running);
    SwitchedBoots(text, Other(running));
  }

  /** A limine.conf with both lines: "default_entry: 1", then "default_entry: 2". */
  function BothLines(): seq<byte> {
    Line(A) + [0x0A] + Line(B)
  }

  /** An update from slot a writes it back as it is, and slot a boots again. */
  lemma UpdateWithoutEffect()
    ensures var text := BothLines();
            && Boots(text) == Some(A) && HasTarget(text, B)
            && Switched(text, B) == text && Boots(Switched(text, B)) == Some(A)
  {
    hide FirstOf;
    var text := BothLines();
    assert text[0..16] == Line(A) && text[17..33] == Line(B);
    assert Line(A)[15] != Line(B)[15];
    FirstAt(text, Line(A), 0);
    FirstAt(text, Line(B), 17);
    assert !At(text, 0, Line(B));
    UpdateTakesEffect(text, A);
  }
}
