/** What an update does to the three files, by the paths and the lines they have
    in the text of the program. */
module InstallPaths {
  import opened Base
  import opened Blocks
  import opened Crashes
  import opened BootText
  import opened FatLayout
  import opened FatTree
  import opened FatFind
  import opened InstallCrash
  import opened Install

  /** A literal as UTF-16 units, and as bytes. */
  function Units(text: string): seq<nat> {
    seq(|text|, i requires 0 <= i < |text| => text[i] as nat)
  }

  function Path(text: string): FatTree.Path {
    Parts(Units(text))
  }

  predicate Reads(text: seq<byte>, i: nat, line: string) {
    i + |line| <= |text| && forall k | i <= k < i + |line| :: text[k] == line[k - i] as int
  }

  ghost predicate Contains(text: seq<byte>, line: string) {
    exists i: nat :: Reads(text, i, line)
  }

  lemma TextsAre()
    ensures SlotText(A) == Units("/boot/kernel-a") && SlotText(B) == Units("/boot/kernel-b")
    ensures CONF_TEXT == Units("/boot/limine/limine.conf")
    ensures SlotPath(A) == Path("/boot/kernel-a") && SlotPath(B) == Path("/boot/kernel-b")
    ensures ConfPath() == Path("/boot/limine/limine.conf")
  {
    hide Parts;
  }

  /** The parts of these paths. */
  lemma PartsAre()
    ensures Path("/boot/kernel-a") == [Units("boot"), Units("kernel-a")]
    ensures Path("/boot/kernel-b") == [Units("boot"), Units("kernel-b")]
    ensures Path("/boot/limine/limine.conf") == [Units("boot"), Units("limine"), Units("limine.conf")]
  {
    hide Parts;
    TextsAre();
    PathsAre();
    assert BOOT == Units("boot") && LIMINE == Units("limine") && LIMINE_CONF == Units("limine.conf");
    assert Kernel(A) == Units("kernel-a") && Kernel(B) == Units("kernel-b");
  }

  lemma LinesAre(text: seq<byte>)
    ensures HasTarget(text, A) <==> Contains(text, "default_entry: 1")
    ensures HasTarget(text, B) <==> Contains(text, "default_entry: 2")
  {
    hide FirstOf;
    LineIs(text, A, "default_entry: 1");
    LineIs(text, B, "default_entry: 2");
  }

  lemma LineIs(text: seq<byte>, s: Slot, line: string)
    requires |line| == 16 && forall k | 0 <= k < 16 :: Line(s)[k] == line[k] as int
    ensures HasTarget(text, s) <==> Contains(text, line)
  {
    hide FirstOf, Line;
    if HasTarget(text, s) {
      var i := FirstOf(text, Line(s), 0).value;
      forall k | i <= k < i + 16
        ensures text[k] == line[k - i] as int
      {
        assert text[k] == text[i..i + 16][k - i] == Line(s)[k - i];
      }
      assert Reads(text, i, line);
    }
    if Contains(text, line) {
      var i: nat :| Reads(text, i, line);
      assert text[i..i + 16] == Line(s);
      FirstAt(text, Line(s), i);
    }
  }

  /** What any stop leaves at a path. */
  ghost predicate NeverWritten(v: Volume, d: Image, w: seq<Event>, path: FatTree.Path)
    requires v.Holds(d)
  {
    forall k, e | 0 <= k <= |w| && Survives(d, w[..k], e) :: v.Holds(e) && Contents(v, e, path) == Contents(v, d, path)
  }

  /** What a finished update leaves: the kernel, then zeros, at its path, and
      limine.conf with the line. */
  ghost predicate Finished(v: Volume, d: Image, e: Image, kernel: seq<byte>, path: FatTree.Path, line: string)
    requires v.Holds(d)
  {
    && v.Holds(e) && (exists n: nat :: Contents(v, e, path) == Some(File(kernel + Streams.Zeros(n))))
    && exists text, now ::
         && Contents(v, d, Path("/boot/limine/limine.conf")) == Some(File(text))
         && Contents(v, e, Path("/boot/limine/limine.conf")) == Some(File(now))
         && |now| == |text| && Contains(now, line)
  }

  /** The machine runs slot a: "/boot/kernel-a" is never written, "/boot/kernel-b"
      gets the kernel, and limine.conf its second entry. */
  lemma RunningA(v: Volume, d: Image, t: Tree, kernel: seq<byte>, manifest: Manifest, compress: Sha256s.Compress,
      isText: seq<byte> -> bool)
    requires WellFormed(v, d, t) && v.Holds(d) && SlotsApart(v)
    ensures var w := InstallLog(v, d, Other(A), kernel, manifest, compress, isText);
            && NeverWritten(v, d, w, Path("/boot/kernel-a"))
            && (Installable(v, d, Other(A), kernel, manifest, compress, isText) ==>
                  Finished(v, d, Replay(d, w), kernel, Path("/boot/kernel-b"), "default_entry: 2"))
  {
    hide WellFormed, SlotsApart, InstallLog, Installable, NeverWritten, Finished, Path, SlotPath, Replay;
    TextsAre();
    RunningKept(v, d, t, A, kernel, manifest, compress, isText);
    if Installable(v, d, Other(A), kernel, manifest, compress, isText) {
      OtherWritten(v, d, t, B, kernel, manifest, compress, isText, "default_entry: 2");
    }
  }

  /** The machine runs slot b: the other way round. */
  lemma RunningB(v: Volume, d: Image, t: Tree, kernel: seq<byte>, manifest: Manifest, compress: Sha256s.Compress,
      isText: seq<byte> -> bool)
    requires WellFormed(v, d, t) && v.Holds(d) && SlotsApart(v)
    ensures var w := InstallLog(v, d, Other(B), kernel, manifest, compress, isText);
            && NeverWritten(v, d, w, Path("/boot/kernel-b"))
            && (Installable(v, d, Other(B), kernel, manifest, compress, isText) ==>
                  Finished(v, d, Replay(d, w), kernel, Path("/boot/kernel-a"), "default_entry: 1"))
  {
    hide WellFormed, SlotsApart, InstallLog, Installable, NeverWritten, Finished, Path, SlotPath, Replay;
    TextsAre();
    RunningKept(v, d, t, B, kernel, manifest, compress, isText);
    if Installable(v, d, Other(B), kernel, manifest, compress, isText) {
      OtherWritten(v, d, t, A, kernel, manifest, compress, isText, "default_entry: 1");
    }
  }

  lemma RunningKept(v: Volume, d: Image, t: Tree, running: Slot, kernel: seq<byte>, manifest: Manifest,
      compress: Sha256s.Compress, isText: seq<byte> -> bool)
    requires WellFormed(v, d, t) && v.Holds(d) && SlotsApart(v)
    ensures NeverWritten(v, d, InstallLog(v, d, Other(running), kernel, manifest, compress, isText), SlotPath(running))
  {
    hide WellFormed, SlotsApart, InstallLog, SlotPath, ConfPath, Contents, Survives, SafeAt, SamePath, Acceptable;
    var w := InstallLog(v, d, Other(running), kernel, manifest, compress, isText);
    InstallSafe(v, d, t, Other(running), kernel, manifest, compress, isText);
    FilesApart(v, running);
    forall k, e | 0 <= k <= |w| && Survives(d, w[..k], e)
      ensures v.Holds(e) && Contents(v, e, SlotPath(running)) == Contents(v, d, SlotPath(running))
    {
      SafeElsewhere(v, d, t, e, Other(running), kernel, manifest, compress, SlotPath(running));
    }
  }

  lemma SafeElsewhere(v: Volume, d: Image, t: Tree, e: Image, target: Slot, kernel: seq<byte>, manifest: Manifest,
      compress: Sha256s.Compress, path: FatTree.Path)
    requires v.Holds(d) && SafeAt(v, d, t, e, target, kernel, manifest, compress)
    requires !SamePath(v, path, SlotPath(target)) && !SamePath(v, path, ConfPath())
    ensures v.Holds(e) && Contents(v, e, path) == Contents(v, d, path)
  {
    hide WellFormed, Contents, SlotPath, ConfPath, Holding, MixedFile, SamePath;
  }

  lemma OtherWritten(v: Volume, d: Image, t: Tree, target: Slot, kernel: seq<byte>, manifest: Manifest,
      compress: Sha256s.Compress, isText: seq<byte> -> bool, line: string)
    requires WellFormed(v, d, t) && v.Holds(d) && SlotsApart(v)
    requires Installable(v, d, target, kernel, manifest, compress, isText)
    requires line == if target == A then "default_entry: 1" else "default_entry: 2"
    ensures var e := Replay(d, InstallLog(v, d, target, kernel, manifest, compress, isText));
            Finished(v, d, e, kernel, SlotPath(target), line)
  {
    hide WellFormed, SlotsApart, InstallLog, SlotPath, ConfPath, Contents, Path, Replay, Switched, HasLine, Contains,
      Find, HasTarget;
    InstallEnds(v, d, t, target, kernel, manifest, compress, isText);
    AcceptableIs(v, d, target, kernel, manifest, compress, isText);
    var text := ConfText(v, d, isText).value;
    TargetThere(text, target);
    LinesAre(Switched(text, target));
    ConfTextIs(v, d, isText);
    ConfRead(v, d, isText);
    TextsAre();
  }

  lemma ConfRead(v: Volume, d: Image, isText: seq<byte> -> bool)
    requires v.Holds(d) && ConfText(v, d, isText).Some?
    ensures Contents(v, d, ConfPath()) == Some(File(ConfText(v, d, isText).value))
  {
    hide Find, ConfPath;
  }
}
