/** The installer as the object it is: its steps are manifest, signature, kernel,
    then the disk. Its methods do to its fields, and to the disk, what the
    functions of `InstallSteps` say. */
module Installers {
  import opened Base
  import opened Blocks
  import opened BootText
  import opened FatTree
  import opened FatEnter
  import opened FatSlots
  import opened Install
  import opened InstallSteps
  import opened InstallRuns

  class Installer {
    const trust: Trust
    var step: Step
    var status: Status
    var signaturePath: seq<nat>
    var manifestBytes: seq<byte>
    var manifest: Option<Manifest>
    /** What the server's signature was, once it was accepted. */
    ghost var signature: seq<byte>

    ghost function Now(): State
      reads this
    {
      State(step, status, signaturePath, manifestBytes, manifest, signature)
    }

    constructor (t: Trust)
      ensures trust == t && Now() == State(Idle, Nothing, [], [], None, [])
    {
      trust := t;
      step, status := Idle, Nothing;
      signaturePath, manifestBytes, manifest := [], [], None;
      signature := [];
    }

    predicate Busy()
      reads this
    {
      step != Idle && step != Finished
    }

    method Fail()
      modifies this`step, this`status
      ensures Now() == old(Now()).Stopped()
    {
      step, status := Finished, Failed;
    }

    /** Starts installing; nothing happens while an installation is under way. */
    method Begin(path: Option<seq<nat>>, signatureAt: Option<seq<nat>>, started: bool)
      modifies this
      ensures Now() == Begun(old(Now()), path, signatureAt, started)
    {
      if Busy() {
        return;
      }
      if path.None? || signatureAt.None? {
        Fail();
        return;
      }
      signaturePath := signatureAt.value;
      manifestBytes, manifest := [], None;
      status := Working;
      if started {
        step := FetchingManifest;
      } else {
        Fail();
      }
    }

    /** The signature arrived: the checks before the kernel is fetched. */
    method CheckSignature(body: seq<byte>, hasStore: bool, started: bool)
      modifies this
      ensures Now() == Judged(trust, old(Now()), body, hasStore, started)
    {
      if |body| != 64 || !trust.verify(manifestBytes, body) {
        Fail();
        return;
      }
      var read := trust.parse(manifestBytes);
      if read.None? || !trust.newer(read.value.build) || !hasStore {
        Fail();
        return;
      }
      manifest, signature := read, body;
      status := Working;
      if started {
        step := FetchingKernel;
      } else {
        Fail();
      }
    }

    /** The kernel arrived: the disk is written, if it is the right one. */
    method Write(kernel: seq<byte>, disk: Disk, store: Option<Store>, ghost t: Tree) returns (ghost w: seq<Event>)
      requires store.Some? ==>
                 WellFormed(store.value.volume, disk.sectors, t) && store.value.volume.Holds(disk.sectors)
                     && SlotsApart(store.value.volume)
      modifies this, disk
      ensures Ready(store, old(disk.sectors))
              && (Now(), w) == Written(trust, store, old(Now()), old(disk.sectors), kernel)
      ensures Went(old(disk.sectors), old(disk.log), disk.sectors, disk.log, w)
    {
      hide WellFormed, SafeAlways, Installable, InstallLog, SlotsApart, Went, Acceptable, ConfText, Holding;
      w := [];
      WentNone(disk.sectors, disk.log);
      if manifest.None? || store.None? {
        Fail();
        return;
      }
      var slot;
      slot, w := Install.Install(store.value.volume, disk, store.value.slot, kernel, manifest.value, trust.compress,
          trust.isText, t);
      if slot.Some? {
        step, status := Finished, Installed(manifest.value.build, slot.value);
      } else {
        Fail();
      }
    }

    /** Moves the installation along. The disk is only written in the last step,
        with everything checked. */
    method Move(download: Download, started: bool, disk: Disk, store: Option<Store>, ghost t: Tree)
      returns (ghost w: seq<Event>)
      requires store.Some? ==>
                 WellFormed(store.value.volume, disk.sectors, t) && store.value.volume.Holds(disk.sectors)
                     && SlotsApart(store.value.volume)
      modifies this, disk
      ensures Ready(store, old(disk.sectors))
      ensures (Now(), w) == Moved(trust, store, old(Now()), old(disk.sectors), download, started)
      ensures Went(old(disk.sectors), old(disk.log), disk.sectors, disk.log, w)
    {
      hide WellFormed, SlotsApart, Went, Written;
      w := [];
      WentNone(disk.sectors, disk.log);
      if !Busy() || download.Running? {
        return;
      }
      if download.Broken? || download.code != 200 {
        Fail();
        return;
      }
      match step
      case FetchingManifest =>
        manifestBytes := download.body;
        status := Working;
        if started {
          step := FetchingSignature;
        } else {
          Fail();
        }
      case FetchingSignature =>
        CheckSignature(download.body, store.Some?, started);
      case FetchingKernel =>
        w := Write(download.body, disk, store, t);
      case Idle =>
      case Finished =>
    }
  }

  /** One input. */
  method Take(installer: Installer, input: Input, disk: Disk, store: Option<Store>, ghost t: Tree)
    returns (ghost w: seq<Event>)
    requires store.Some? ==>
               WellFormed(store.value.volume, disk.sectors, t) && store.value.volume.Holds(disk.sectors)
                   && SlotsApart(store.value.volume)
    modifies installer, disk
    ensures Ready(store, old(disk.sectors))
    ensures (installer.Now(), w) == Next(installer.trust, store, old(installer.Now()), old(disk.sectors), input)
    ensures Went(old(disk.sectors), old(disk.log), disk.sectors, disk.log, w)
  {
    hide WellFormed, SlotsApart, Went, Moved;
    w := [];
    WentNone(disk.sectors, disk.log);
    match input {
      case Start(path, signatureAt, started) =>
        installer.Begin(path, signatureAt, started);
      case Poll(download, started) =>
        w := installer.Move(download, started, disk, store, t);
    }
  }

  /** Every input, one after the other: the run that `Course` describes. What is
      written is written with the input that brings the kernel, after one that
      brought its signed manifest and one that brought the signature. Whatever the
      disk loses and wherever it stops, limine.conf boots the running slot,
      untouched, or the other one, with a verified kernel whole, if and only if
      every mixture of a kernel written to a slot that limine.conf boots already,
      and of the file it replaces, is a verified kernel. */
  method Drive(installer: Installer, inputs: seq<Input>, disk: Disk, store: Option<Store>, ghost t: Tree)
    returns (ghost logs: seq<seq<Event>>)
    requires installer.step == Idle && !installer.status.Installed?
    requires store.Some? ==>
               WellFormed(store.value.volume, disk.sectors, t) && store.value.volume.Holds(disk.sectors)
                   && SlotsApart(store.value.volume)
    modifies installer, disk
    ensures Ready(store, old(disk.sectors))
    ensures (installer.Now(), logs) == Course(installer.trust, store, old(installer.Now()), old(disk.sectors), inputs)
    ensures disk.log == old(disk.log) + OneLog(logs) && disk.sectors == Replay(old(disk.sectors), OneLog(logs))
    ensures forall k | 0 <= k < |logs|
            && logs[k] != [] :: exists i: nat, j: nat :: CheckedBefore(installer.trust, inputs, i, j, k)
    ensures installer.status.Installed? ==> OneLog(logs) != []
    ensures store.Some? ==> WellFormed(store.value.volume, disk.sectors, t)
    ensures store.Some? && ConfBoots(store.value.volume, old(disk.sectors)) == Some(store.value.slot) ==>
              var v, running := store.value.volume, store.value.slot;
              AlwaysBootable(v, old(disk.sectors), OneLog(logs), running, installer.trust) <==>
              AllHarmless(installer.trust, Rewrites(v, old(disk.sectors), inputs, logs, running))
  {
    hide WellFormed, SlotsApart, AlwaysBootable, AllHarmless, Rewrites, ConfBoots, Next, Course, Replay, OneLog,
      CheckedBefore, Sourced;
    ghost var d, log, s, trust := disk.sectors, disk.log, installer.Now(), installer.trust;
    logs := [];
    NoWrites(d);
    RunNone(trust, store, s, d);
    assert log + [] == log;
    for n := 0 to |inputs|
      invariant (installer.Now(), logs) == Course(trust, store, s, d, inputs[..n]) && |logs| == n
      invariant disk.log == log + OneLog(logs) && disk.sectors == Replay(d, OneLog(logs))
      invariant store.Some? ==>
                  WellFormed(store.value.volume, disk.sectors, t) && store.value.volume.Holds(disk.sectors)
      invariant installer.status.Installed? ==> OneLog(logs) != []
    {
      ghost var was, before := logs, installer.Now();
      ghost var now := disk.sectors;
      ghost var w := Take(installer, inputs[n], disk, store, t);
      logs := logs + [w];
      assert inputs[..n + 1] == inputs[..n] + [inputs[n]];
      RunMore(trust, store, s, d, inputs[..n], inputs[n]);
      OneLogMore(was, w);
      ReplayConcat(d, OneLog(was), w);
      InstalledWrites(trust, store, before, now, inputs[n]);
      if store.Some? {
        RunWhole(trust, store.value, s, d, t, inputs[..n + 1]);
      }
    }
    assert inputs[..|inputs|] == inputs;
    ghost var m, g := RunOrdered(trust, store, s, d, inputs);
    if store.Some? && ConfBoots(store.value.volume, d) == Some(store.value.slot) {
      RunExact(trust, store.value, s, d, t, inputs);
    }
  }

  /** Nothing is shown as installed that was not written. */
  lemma InstalledWrites(trust: Trust, store: Option<Store>, s: State, d: Image, input: Input)
    requires Ready(store, d)
    ensures var (x, w) := Next(trust, store, s, d, input);
            x.status.Installed? ==> s.status.Installed? || w != []
  {
    hide OneLog, Replay, SwitchLog, SlotPath, ConfText;
  }
}
