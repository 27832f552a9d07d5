/** What boots after any run of the installer, stopped anywhere on a disk that may
    lose writes: exactly when it is a kernel that ran or a verified one. */
module InstallRuns {
  import opened Base
  import opened Blocks
  import opened Crashes
  import opened BootText
  import opened FatLayout
  import opened FatData
  import opened FatTree
  import opened FatWrite
  import opened FatOverwrite
  import opened InstallCrash
  import opened InstallTorn
  import opened Install
  import opened InstallSteps
  import Streams

  // ---- What boots -------------------------------------------------------------------------------

  /** The slot limine.conf boots. */
  ghost function ConfBoots(v: Volume, d: Image): Option<Slot>
    requires v.Holds(d)
  {
    match Contents(v, d, ConfPath())
    case Some(File(text)) => Boots(text)
    case _ => None
  }

  /** The bytes of the file in a slot. */
  ghost function SlotBytes(v: Volume, d: Image, s: Slot): Option<seq<byte>>
    requires v.Holds(d)
  {
    match Contents(v, d, SlotPath(s))
    case Some(File(bytes)) => Some(bytes)
    case _ => None
  }

  /** A file that is the whole of a kernel some signed manifest describes. */
  ghost predicate Verified(trust: Trust, file: seq<byte>) {
    exists signed, signature, kernel, n: nat :: Authorized(trust, signed, signature, kernel)
        && file == kernel + Streams.Zeros(n)
  }

  ghost predicate HoldsVerified(v: Volume, e: Image, s: Slot, trust: Trust)
    requires v.Holds(e)
  {
    SlotBytes(v, e, s).Some? && Verified(trust, SlotBytes(v, e, s).value)
  }

  /** What starts next: the kernel that ran, untouched, or the other one, verified
      and whole. */
  ghost predicate Bootable(v: Volume, d: Image, e: Image, running: Slot, trust: Trust)
    requires v.Holds(d)
  {
    && v.Holds(e) && Contents(v, e, SlotPath(running)) == Contents(v, d, SlotPath(running))
    && (ConfBoots(v, e) == Some(running) || (ConfBoots(v, e) == Some(Other(running))
        && HoldsVerified(v, e, Other(running), trust)))
  }

  ghost predicate AlwaysBootable(v: Volume, d: Image, w: seq<Event>, running: Slot, trust: Trust)
    requires v.Holds(d)
  {
    forall k, e | 0 <= k <= |w| && Survives(d, w[..k], e) :: Bootable(v, d, e, running, trust)
  }

  /** Every mixture of the sectors of a file with those of `kernel` is a verified
      kernel. */
  ghost predicate EveryMixture(trust: Trust, before: seq<byte>, kernel: seq<byte>) {
    forall m | Mixture(before, kernel, m) :: Verified(trust, m)
  }

  // ---- One update -------------------------------------------------------------------------------

  /** The file of a slot that an update may write, before it does. */
  lemma SlotFile(v: Volume, d: Image, t: Tree, s: Slot, kernel: seq<byte>)
    requires Overwritable(v, d, t, SlotPath(s), kernel)
    ensures v.Holds(d) && SlotBytes(v, d, s).Some?
            && Contents(v, d, SlotPath(s)) == Some(File(SlotBytes(v, d, s).value))
    ensures |SlotBytes(v, d, s).value| == Find(v, d, SlotPath(s)).value.size
  {
    hide WellFormed, Find, SlotPath, OverwriteLog, FileBytes;
    FindOk(v, d, t, SlotPath(s));
    OverwriteChain(v, d, t, SlotPath(s), kernel);
    FileReads(v, d, t, Find(v, d, SlotPath(s)).value);
    FrontBytes(v, d, Find(v, d, SlotPath(s)).value, 0);
  }

  /** An update begun while limine.conf boots the running slot. */
  lemma EarlyUpdate(v: Volume, d: Image, t: Tree, w: seq<Event>, running: Slot, trust: Trust, signed: seq<byte>,
      signature: seq<byte>, kernel: seq<byte>)
    requires v.Holds(d) && SlotsApart(v) && ConfBoots(v, d) == Some(running)
    requires Authorized(trust, signed, signature, kernel)
    requires SafeAlways(v, d, t, w, Other(running), kernel, trust.parse(signed).value, trust.compress)
    ensures AlwaysBootable(v, d, w, running, trust)
  {
    hide Contents, Authorized, Survives, SlotsApart, SlotPath, ConfPath, Holding, Boots, SafeAlways, Verified;
    AuthorizedParses(trust, signed, signature, kernel);
    var text, m := Contents(v, d, ConfPath()).value.bytes, trust.parse(signed).value;
    forall k, e | 0 <= k <= |w| && Survives(d, w[..k], e)
      ensures Bootable(v, d, e, running, trust)
    {
      UpdateSafe(v, d, t, w, k, e, running, kernel, m, trust.compress, text);
      if ConfBoots(v, e) != Some(running) {
        HoldingVerified(v, e, Other(running), trust, signed, signature, kernel);
      }
    }
  }

  lemma AuthorizedParses(trust: Trust, signed: seq<byte>, signature: seq<byte>, kernel: seq<byte>)
    requires Authorized(trust, signed, signature, kernel)
    ensures trust.parse(signed).Some?
  {
  }

  lemma HoldingVerified(v: Volume, e: Image, s: Slot, trust: Trust, signed: seq<byte>, signature: seq<byte>,
      kernel: seq<byte>)
    requires Authorized(trust, signed, signature, kernel)
    requires v.Holds(e) && Holding(v, e, s, kernel, trust.parse(signed).value, trust.compress)
    ensures HoldsVerified(v, e, s, trust)
  {
    hide Contents, Authorized, SlotPath;
  }

  /** An update begun although limine.conf boots the other slot: after any stop the
      other slot boots, with a mixture of what it held and the kernel. */
  lemma LateStop(v: Volume, d: Image, t: Tree, w: seq<Event>, k: nat, e: Image, running: Slot, kernel: seq<byte>,
      manifest: Manifest, trust: Trust, before: seq<byte>)
    requires v.Holds(d) && SlotsApart(v) && ConfBoots(v, d) == Some(Other(running))
    requires SafeAlways(v, d, t, w, Other(running), kernel, manifest, trust.compress)
    requires k <= |w| && Survives(d, w[..k], e) && SlotBytes(v, d, Other(running)) == Some(before)
    ensures v.Holds(e) && Contents(v, e, SlotPath(running)) == Contents(v, d, SlotPath(running))
    ensures ConfBoots(v, e) == Some(Other(running))
    ensures SlotBytes(v, e, Other(running)).Some? && Mixture(before, kernel, SlotBytes(v, e, Other(running)).value)
  {
    hide WellFormed, Contents, SamePath, Survives, SlotsApart, SlotPath, ConfPath, Holding, Mixture, FirstOf;
    assert SafeAt(v, d, t, e, Other(running), kernel, manifest, trust.compress);
    FilesApart(v, running);
    OtherTwice(running);
  }

  /** And every mixture may be left: such an update is safe if and only if each of
      them is a verified kernel. */
  lemma LateUpdate(v: Volume, d: Image, t: Tree, w: seq<Event>, running: Slot, trust: Trust, kernel: seq<byte>,
      manifest: Manifest, before: seq<byte>)
    requires SlotsApart(v) && Overwritable(v, d, t, SlotPath(Other(running)), kernel)
    requires ConfBoots(v, d) == Some(Other(running)) && SlotBytes(v, d, Other(running)) == Some(before)
    requires SafeAlways(v, d, t, w, Other(running), kernel, manifest, trust.compress)
    requires OverwriteLog(v, d, Find(v, d, SlotPath(Other(running))).value, kernel).value <= w
    ensures v.Holds(d) && (AlwaysBootable(v, d, w, running, trust) <==> EveryMixture(trust, before, kernel))
  {
    hide WellFormed, Find, Contents, OverwriteLog, SlotPath, ConfPath, SlotsApart, Survives, Boots, SafeAlways, Mixture,
      Verified;
    if AlwaysBootable(v, d, w, running, trust) {
      var first := OverwriteLog(v, d, Find(v, d, SlotPath(Other(running))).value, kernel).value;
      forall m | Mixture(before, kernel, m)
        ensures Verified(trust, m)
      {
        var e := MixtureSurvives(v, d, t, SlotPath(Other(running)), before, kernel, m);
        assert w[..|first|] == first;
        LateStop(v, d, t, w, |first|, e, running, kernel, manifest, trust, before);
        assert Bootable(v, d, e, running, trust);
        assert Other(running) != running;
      }
    }
    if EveryMixture(trust, before, kernel) {
      forall k, e | 0 <= k <= |w| && Survives(d, w[..k], e)
        ensures Bootable(v, d, e, running, trust)
      {
        LateStop(v, d, t, w, k, e, running, kernel, manifest, trust, before);
      }
    }
  }

  // ---- One after the other ----------------------------------------------------------------------

  /** After a flush, stopping later is stopping on what the flush left. */
  lemma {:induction false} SurvivesOn(d: Image, a: seq<Event>, b: seq<Event>, e: Image)
    requires Survives(Replay(d, a), b, e)
    ensures Survives(d, a + b, e)
  {
    if b == [] {
      assert a + b == a;
      SurvivesWhole(d, a);
    } else {
      var n := |b| - 1;
      assert (a + b)[..|a + b| - 1] == a + b[..n] && (a + b)[|a + b| - 1] == b[n];
      ReplayConcat(d, a, b[..n]);
      if b[n].Barrier? {
      } else if Survives(Replay(d, a), b[..n], e) {
        SurvivesOn(d, a, b[..n], e);
      } else {
        var f :| Survives(Replay(d, a), b[..n], f) && e == Apply(f, b[n]);
        SurvivesOn(d, a, b[..n], f);
      }
    }
  }

  /** More writes after a flush: safe if and only if both parts are. */
  lemma BootableOn(v: Volume, d: Image, a: seq<Event>, w: seq<Event>, running: Slot, trust: Trust)
    requires v.Holds(d) && v.Holds(Replay(d, a)) && (a != [] ==> a[|a| - 1] == Barrier)
    ensures AlwaysBootable(v, d, a, running, trust) ==> Bootable(v, d, Replay(d, a), running, trust)
    ensures AlwaysBootable(v, d, a + w, running, trust) <==>
              AlwaysBootable(v, d, a, running, trust) && AlwaysBootable(v, Replay(d, a), w, running, trust)
  {
    hide Contents, SlotPath, ConfPath, Boots, Survives, Replay, Verified, ConfBoots, HoldsVerified;
    var mid, all := Replay(d, a), a + w;
    SurvivesWhole(d, a);
    assert a[..|a|] == a;
    assert AlwaysBootable(v, d, a, running, trust) ==> Bootable(v, d, mid, running, trust);
    if AlwaysBootable(v, d, all, running, trust) {
      forall k, e | 0 <= k <= |a| && Survives(d, a[..k], e)
        ensures Bootable(v, d, e, running, trust)
      {
        assert all[..k] == a[..k];
      }
      forall k, e | 0 <= k <= |w| && Survives(mid, w[..k], e)
        ensures Bootable(v, mid, e, running, trust)
      {
        assert all[..|a| + k] == a + w[..k];
        SurvivesOn(d, a, w[..k], e);
        assert Bootable(v, d, e, running, trust);
      }
    }
    if AlwaysBootable(v, d, a, running, trust) && AlwaysBootable(v, mid, w, running, trust) {
      forall k, e | 0 <= k <= |all| && Survives(d, all[..k], e)
        ensures Bootable(v, d, e, running, trust)
      {
        if k <= |a| {
          assert all[..k] == a[..k];
        } else {
          assert all[..k] == a + w[..k - |a|];
          SurvivesPast(d, a, w[..k - |a|], e);
          assert Bootable(v, mid, e, running, trust);
        }
      }
    }
  }

  // ---- Any run ----------------------------------------------------------------------------------

  /** A kernel written to a slot, and the file it replaces. */
  datatype Rewrite = Rewrite(before: seq<byte>, kernel: seq<byte>)

  /** What is rewritten when an input writes `w` on `d`, if limine.conf boots the
      slot that does not run already. */
  ghost function LateWrite(v: Volume, d: Image, input: Input, w: seq<Event>, running: Slot): Option<Rewrite>
    requires v.Holds(d)
  {
    if w != [] && Body(input).Some? && ConfBoots(v, d) == Some(Other(running)) && SlotBytes(v, d, Other(running)).Some?
    then Some(Rewrite(SlotBytes(v, d, Other(running)).value, Body(input).value)) else None
  }

  /** All the rewrites of a run that come although limine.conf boots the slot they
      go to. */
  ghost function Rewrites(v: Volume, d: Image, inputs: seq<Input>, logs: seq<seq<Event>>, running: Slot): seq<Rewrite>
    requires v.Holds(d) && |inputs| == |logs|
  {
    if inputs == [] then []
    else
      var n := |inputs| - 1;
      var late := LateWrite(v, Replay(d, OneLog(logs[..n])), inputs[n], logs[n], running);
      Rewrites(v, d, inputs[..n], logs[..n], running) + if late.Some? then [late.value] else []
  }

  /** Whichever sectors of the two files a stop may leave, they make a verified
      kernel. */
  ghost predicate AllHarmless(trust: Trust, rewrites: seq<Rewrite>) {
    forall r | r in rewrites :: EveryMixture(trust, r.before, r.kernel)
  }

  /** Two files that differ in two sectors. */
  predicate TwoSectors(before: seq<byte>, kernel: seq<byte>) {
    exists i, j | 0 <= i < |before| && 0 <= j < |before| ::
      i / 512 != j / 512 && before[i] != ByteOf(kernel, i) && before[j] != ByteOf(kernel, j)
  }

  predicate AllSmall(rewrites: seq<Rewrite>) {
    forall r | r in rewrites :: !TwoSectors(r.before, r.kernel)
  }

  /** Of the mixtures of two files only they themselves, at most, are verified
      kernels. */
  ghost predicate OnlyEnds(trust: Trust, before: seq<byte>, kernel: seq<byte>) {
    forall m | Mixture(before, kernel, m) && Verified(trust, m) ::
      m == before || forall j | 0 <= j < |m| :: m[j] == ByteOf(kernel, j)
  }

  ghost predicate NoChance(trust: Trust, rewrites: seq<Rewrite>) {
    forall r | r in rewrites :: OnlyEnds(trust, r.before, r.kernel)
  }

  /** The disk stays well formed, and every input's writes end with a flush. */
  lemma {:induction false} RunWhole(trust: Trust, store: Store, s: State, d: Image, t: Tree, inputs: seq<Input>)
    requires WellFormed(store.volume, d, t) && store.volume.Holds(d) && SlotsApart(store.volume) && !s.Busy()
    ensures var (u, logs) := Course(trust, Some(store), s, d, inputs);
            var w := OneLog(logs);
            && WellFormed(store.volume, Replay(d, w), t) && store.volume.Holds(Replay(d, w))
            && (w != [] ==> w[|w| - 1] == Barrier)
            && Checked(trust, u)
  {
    hide WellFormed, SlotsApart, Next, Replay, Sourced, CheckedBefore;
    var m, g := RunOrdered(trust, Some(store), s, d, inputs);
    var last := Course(trust, Some(store), s, d, inputs).0;
    assert Checked(trust, last) by {
      SourcedChecked(trust, last, inputs, m, g);
    }
    if inputs == [] {
      NoWrites(d);
    } else {
      var n := |inputs| - 1;
      assert inputs == inputs[..n] + [inputs[n]];
      RunWhole(trust, store, s, d, t, inputs[..n]);
      RunMore(trust, Some(store), s, d, inputs[..n], inputs[n]);
      var (u, logs) := Course(trust, Some(store), s, d, inputs[..n]);
      var a := OneLog(logs);
      var w := Next(trust, Some(store), u, Replay(d, a), inputs[n]).1;
      OneLogMore(logs, w);
      ReplayConcat(d, a, w);
      if w == [] {
        assert a + w == a;
      } else {
        NextSafe(trust, store, u, Replay(d, a), t, inputs[n]);
        StillWhole(store.volume, Replay(d, a), t, w, Other(store.slot), Body(inputs[n]).value, u.manifest.value,
            trust.compress);
      }
    }
  }

  lemma SourcedChecked(trust: Trust, s: State, inputs: seq<Input>, m: nat, g: nat)
    requires Sourced(trust, s, inputs, m, g)
    ensures Checked(trust, s)
  {
  }

  lemma NoWrites(d: Image)
    ensures OneLog([]) == [] && Replay(d, []) == d
  {
  }

  /** An input that writes, writes what is safe. */
  lemma NextSafe(trust: Trust, store: Store, s: State, d: Image, t: Tree, input: Input)
    requires WellFormed(store.volume, d, t) && store.volume.Holds(d) && SlotsApart(store.volume) && Checked(trust, s)
    requires Next(trust, Some(store), s, d, input).1 != []
    ensures s.step == FetchingKernel && s.manifest.Some? && Body(input).Some?
    ensures var w, kernel, target := Next(trust, Some(store), s, d, input).1, Body(input).value, Other(store.slot);
            && SafeAlways(store.volume, d, t, w, target, kernel, s.manifest.value, trust.compress)
            && w[|w| - 1] == Barrier
            && Authorized(trust, s.manifestBytes, s.signature, kernel)
            && s.manifest == trust.parse(s.manifestBytes)
            && Overwritable(store.volume, d, t, SlotPath(target), kernel)
            && OverwriteLog(store.volume, d, Find(store.volume, d, SlotPath(target)).value, kernel).value <= w
  {
    hide WellFormed, SlotsApart, Next, SafeAlways, Authorized, SlotPath, Find, OverwriteLog, InstallLog, Acceptable,
      SwitchLog, Replay;
    var v, target, kernel, m := store.volume, Other(store.slot), Body(input), s.manifest;
    NextWrites(trust, Some(store), s, d, input);
    InstallSafe(v, d, t, target, kernel.value, m.value, trust.compress, trust.isText);
    InstallLogIs(v, d, target, kernel.value, m.value, trust.compress, trust.isText);
    AcceptableIs(v, d, target, kernel.value, m.value, trust.compress, trust.isText);
    IsOverwritable(v, d, t, SlotPath(target), kernel.value);
  }

  lemma StillWhole(v: Volume, d: Image, t: Tree, w: seq<Event>, target: Slot, kernel: seq<byte>, m: Manifest,
      compress: Sha256s.Compress)
    requires v.Holds(d) && SafeAlways(v, d, t, w, target, kernel, m, compress)
    ensures WellFormed(v, Replay(d, w), t) && v.Holds(Replay(d, w))
  {
    hide WellFormed, Survives, Contents, SlotPath, SafeAt;
    SurvivesWhole(d, w);
    assert w[..|w|] == w;
    SafeWhole(v, d, t, Replay(d, w), target, kernel, m, compress);
  }

  lemma SafeWhole(v: Volume, d: Image, t: Tree, e: Image, target: Slot, kernel: seq<byte>, m: Manifest,
      compress: Sha256s.Compress)
    requires v.Holds(d) && SafeAt(v, d, t, e, target, kernel, m, compress)
    ensures WellFormed(v, e, t) && v.Holds(e)
  {
    hide WellFormed, Contents, SlotPath, ConfPath, Holding, MixedFile;
  }

  /** One input more: still safe if and only if it was, and what it rewrites, if it
      is late, is harmless. */
  lemma RunStep(trust: Trust, store: Store, s: State, d: Image, t: Tree, inputs: seq<Input>, input: Input)
    returns (late: Option<Rewrite>)
    requires WellFormed(store.volume, d, t) && store.volume.Holds(d) && SlotsApart(store.volume) && !s.Busy()
    requires ConfBoots(store.volume, d) == Some(store.slot)
    ensures var v, running := store.volume, store.slot;
            var logs, all := Course(trust, Some(store), s, d, inputs).1, Course(trust, Some(store), s, d,
                inputs + [input]).1;
            && Rewrites(v, d, inputs + [input], all, running)
               == Rewrites(v, d, inputs, logs, running) + (if late.Some? then [late.value] else [])
            && (AlwaysBootable(v, d, OneLog(all), running, trust) <==>
                  && AlwaysBootable(v, d, OneLog(logs), running, trust)
                  && (late.Some? ==> EveryMixture(trust, late.value.before, late.value.kernel)))
            && (late.Some? && AlwaysBootable(v, d, OneLog(logs), running, trust) ==>
                  Verified(trust, late.value.before))
    ensures late.Some? ==> |late.value.kernel| <= |late.value.before|
                           && exists signed, signature :: Authorized(trust, signed, signature, late.value.kernel)
  {
    hide WellFormed, SlotsApart, Next, Replay, Course, OneLog, Verified, Authorized, AlwaysBootable, EveryMixture,
      SafeAlways, OverwriteLog, Find, SlotPath, Overwritable, Contents, ConfPath, Boots;
    var v, running := store.volume, store.slot;
    RunWhole(trust, store, s, d, t, inputs);
    RunMore(trust, Some(store), s, d, inputs, input);
    var (u, logs) := Course(trust, Some(store), s, d, inputs);
    var a := OneLog(logs);
    var now := Replay(d, a);
    var w := Next(trust, Some(store), u, now, input).1;
    var all := Course(trust, Some(store), s, d, inputs + [input]).1;
    late := LateWrite(v, now, input, w, running);
    RewritesMore(v, d, inputs, input, logs, w, running);
    OneLogMore(logs, w);
    BootableOn(v, d, a, w, running, trust);
    if w == [] {
      assert a + w == a;
    } else {
      NextSafe(trust, store, u, now, t, input);
      var kernel := Body(input).value;
      SlotFile(v, now, t, Other(running), kernel);
      OverwriteFits(v, now, t, SlotPath(Other(running)), kernel);
      if ConfBoots(v, now) == Some(Other(running)) {
        LateUpdate(v, now, t, w, running, trust, kernel, u.manifest.value, SlotBytes(v, now, Other(running)).value);
      } else if AlwaysBootable(v, d, a, running, trust) {
        EarlyUpdate(v, now, t, w, running, trust, u.manifestBytes, u.signature, kernel);
      }
    }
  }

  lemma RewritesMore(v: Volume, d: Image, inputs: seq<Input>, input: Input, logs: seq<seq<Event>>, w: seq<Event>,
      running: Slot)
    requires v.Holds(d) && |inputs| == |logs|
    ensures v.Holds(Replay(d, OneLog(logs)))
    ensures var late := LateWrite(v, Replay(d, OneLog(logs)), input, w, running);
            Rewrites(v, d, inputs + [input], logs + [w], running)
            == Rewrites(v, d, inputs, logs, running) + if late.Some? then [late.value] else []
  {
    hide LateWrite, Replay, OneLog;
    assert (inputs + [input])[..|inputs|] == inputs && (logs + [w])[..|logs|] == logs;
  }

  lemma OverwriteFits(v: Volume, d: Image, t: Tree, path: Path, data: seq<byte>)
    requires Overwritable(v, d, t, path, data)
    ensures |data| <= Find(v, d, path).value.size
  {
    hide WellFormed, Find;
  }

  /** A run is safe at every stop, whatever the disk loses, if and only if every
      kernel written to a slot that limine.conf boots already is such that all
      mixtures of it with the file it replaces are verified kernels. */
  lemma {:induction false} RunExact(trust: Trust, store: Store, s: State, d: Image, t: Tree, inputs: seq<Input>)
    requires WellFormed(store.volume, d, t) && store.volume.Holds(d) && SlotsApart(store.volume) && !s.Busy()
    requires ConfBoots(store.volume, d) == Some(store.slot)
    ensures var logs := Course(trust, Some(store), s, d, inputs).1;
            AlwaysBootable(store.volume, d, OneLog(logs), store.slot, trust) <==>
              AllHarmless(trust, Rewrites(store.volume, d, inputs, logs, store.slot))
  {
    hide WellFormed, SlotsApart, Course, OneLog, AlwaysBootable, EveryMixture, Rewrites, Verified, Authorized, Mixture,
      Replay, ConfBoots;
    if inputs == [] {
      NothingYet(trust, store, s, d);
    } else {
      var n := |inputs| - 1;
      assert inputs == inputs[..n] + [inputs[n]];
      RunExact(trust, store, s, d, t, inputs[..n]);
      var late := RunStep(trust, store, s, d, t, inputs[..n], inputs[n]);
    }
  }

  lemma NothingYet(trust: Trust, store: Store, s: State, d: Image)
    requires store.volume.Holds(d) && ConfBoots(store.volume, d) == Some(store.slot)
    ensures Course(trust, Some(store), s, d, []) == (s, []) && OneLog([]) == []
    ensures AlwaysBootable(store.volume, d, [], store.slot, trust)
            && Rewrites(store.volume, d, [], [], store.slot) == []
  {
    hide Contents, SlotPath, ConfPath, ConfBoots;
  }

  /** Unless a mixture of two kernels happens to be a third one, that is so if and
      only if none of them differs in two sectors from the file it replaces. */
  lemma {:induction false} RunSmall(trust: Trust, store: Store, s: State, d: Image, t: Tree, inputs: seq<Input>)
    requires WellFormed(store.volume, d, t) && store.volume.Holds(d) && SlotsApart(store.volume) && !s.Busy()
    requires ConfBoots(store.volume, d) == Some(store.slot)
    requires NoChance(trust, Rewrites(store.volume, d, inputs, Course(trust, Some(store), s, d, inputs).1, store.slot))
    ensures var logs := Course(trust, Some(store), s, d, inputs).1;
            AlwaysBootable(store.volume, d, OneLog(logs), store.slot, trust) <==>
              AllSmall(Rewrites(store.volume, d, inputs, logs, store.slot))
  {
    hide WellFormed, SlotsApart, Course, OneLog, AlwaysBootable, EveryMixture, Rewrites, Verified, Authorized, Mixture,
      Replay, ConfBoots, TwoSectors, OnlyEnds;
    if inputs == [] {
      NothingYet(trust, store, s, d);
    } else {
      var n := |inputs| - 1;
      assert inputs == inputs[..n] + [inputs[n]];
      var late := RunStep(trust, store, s, d, t, inputs[..n], inputs[n]);
      RunSmall(trust, store, s, d, t, inputs[..n]);
      if late.Some? && Verified(trust, late.value.before) {
        var signed, signature :| Authorized(trust, signed, signature, late.value.kernel);
        TwoEnds(trust, late.value.before, late.value.kernel, signed, signature);
      }
    }
  }

  /** When both ends are verified kernels and nothing between them is, the mixtures
      are harmless if there is nothing between them. */
  lemma TwoEnds(trust: Trust, before: seq<byte>, kernel: seq<byte>, signed: seq<byte>, signature: seq<byte>)
    requires Verified(trust, before) && Authorized(trust, signed, signature, kernel) && |kernel| <= |before|
    requires OnlyEnds(trust, before, kernel)
    ensures EveryMixture(trust, before, kernel) <==> !TwoSectors(before, kernel)
  {
    hide Verified, Authorized, Mixture;
    if TwoSectors(before, kernel) {
      var i, j :| 0 <= i < |before| && 0 <= j < |before| && i / 512 != j / 512
                  && before[i] != ByteOf(kernel, i) && before[j] != ByteOf(kernel, j);
      var m := Between(before, kernel, i / 512);
      assert m[i] == ByteOf(kernel, i) && m[j] == before[j];
    } else {
      var s := if exists i :: 0 <= i < |before| && before[i] != ByteOf(kernel, i)
               then (var i :| 0 <= i < |before| && before[i] != ByteOf(kernel, i); i / 512) else 0;
      forall m | Mixture(before, kernel, m)
        ensures Verified(trust, m)
      {
        OneSector(before, kernel, m, s);
        MixtureSize(before, kernel, m);
        if m != before {
          NewVerified(trust, m, kernel, signed, signature);
        }
      }
    }
  }

  /** One sector of the new file, the others old. */
  lemma Between(before: seq<byte>, kernel: seq<byte>, s: nat) returns (m: seq<byte>)
    ensures Mixture(before, kernel, m)
    ensures forall j | 0 <= j < |m| :: m[j] == if j / 512 == s then ByteOf(kernel, j) else before[j]
  {
    m := seq(|before|, j requires 0 <= j < |before| => if j / 512 == s then ByteOf(kernel, j) else before[j]);
    forall x: nat
      ensures SameSector(before, m, x) || SameSector(kernel, m, x)
    {
      assert x == s ==> SameSector(kernel, m, x);
      assert x != s ==> SameSector(before, m, x);
    }
  }

  lemma NewVerified(trust: Trust, m: seq<byte>, kernel: seq<byte>, signed: seq<byte>, signature: seq<byte>)
    requires Authorized(trust, signed, signature, kernel) && |kernel| <= |m|
    requires forall j | 0 <= j < |m| :: m[j] == ByteOf(kernel, j)
    ensures Verified(trust, m)
  {
    hide Authorized;
    assert m == kernel + Streams.Zeros(|m| - |kernel|);
  }
}
