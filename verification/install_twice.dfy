/** An update asked for twice before the machine has started again: a run of the
    installer that is not safe. */
module InstallTwice {
  import opened Base
  import opened Blocks
  import opened BootText
  import opened FatLayout
  import opened FatData
  import opened FatTree
  import opened FatFind
  import opened InstallCrash
  import opened Install
  import opened InstallSteps
  import opened InstallRuns
  import Streams

  /** What the server answers with, when an update goes through. */
  datatype Release = Release(signed: seq<byte>, signature: seq<byte>, kernel: seq<byte>)

  function Answered(body: seq<byte>): Input {
    Poll(Arrived(200, body), true)
  }

  /** An update asked for, and its three downloads. */
  function Update(r: Release): seq<Input> {
    [Start(Some([]), Some([]), true), Answered(r.signed), Answered(r.signature), Answered(r.kernel)]
  }

  ghost predicate Genuine(trust: Trust, r: Release) {
    Authorized(trust, r.signed, r.signature, r.kernel)
  }

  ghost function LogOf(trust: Trust, store: Store, d: Image, r: Release): seq<Event>
    requires store.volume.Holds(d) && trust.parse(r.signed).Some?
  {
    InstallLog(store.volume, d, Other(store.slot), r.kernel, trust.parse(r.signed).value, trust.compress, trust.isText)
  }

  /** The downloads of an update, up to the kernel, write nothing. */
  lemma UpdateFront(trust: Trust, store: Store, s: State, d: Image, r: Release)
    requires store.volume.Holds(d) && !s.Busy() && Genuine(trust, r)
    ensures var (u, logs) := Course(trust, Some(store), s, d, Update(r)[..3]);
            logs == [[], [], []] && u.step == FetchingKernel && u.manifest == trust.parse(r.signed)
  {
    hide Sha256s.Digest, Replay, Course, OneLog, Written;
    var all, some := Update(r), Some(store);
    assert all[..1] == [] + [all[0]] && all[..2] == all[..1] + [all[1]] && all[..3] == all[..2] + [all[2]];
    RunNone(trust, some, s, d);
    RunMore(trust, some, s, d, [], all[0]);
    RunMore(trust, some, s, d, all[..1], all[1]);
    RunMore(trust, some, s, d, all[..2], all[2]);
  }

  lemma NoneOf(d: Image)
    ensures OneLog([[], [], []]) == [] && Replay(d, []) == d
  {
    var none: seq<seq<Event>> := [];
    assert none + [[]] + [[]] + [[]] == [[], [], []];
    OneLogMore(none, []);
    OneLogMore(none + [[]], []);
    OneLogMore(none + [[]] + [[]], []);
  }

  lemma UpdateCourse(trust: Trust, store: Store, s: State, d: Image, r: Release)
    requires store.volume.Holds(d) && !s.Busy() && Genuine(trust, r)
    ensures trust.parse(r.signed).Some?
    ensures var (x, logs) := Course(trust, Some(store), s, d, Update(r));
            logs == [[], [], [], LogOf(trust, store, d, r)] && !x.Busy() && OneLog(logs) == LogOf(trust, store, d, r)
  {
    hide Sha256s.Digest, Replay, Course, OneLog, Installable, InstallLog;
    UpdateFront(trust, store, s, d, r);
    NoneOf(d);
    var (u, logs) := Course(trust, Some(store), s, d, Update(r)[..3]);
    assert Update(r) == Update(r)[..3] + [Update(r)[3]];
    RunMore(trust, Some(store), s, d, Update(r)[..3], Update(r)[3]);
    OneLogMore(logs, LogOf(trust, store, d, r));
    assert [] + LogOf(trust, store, d, r) == LogOf(trust, store, d, r);
  }

  /** A file of `size` bytes that starts with the kernel. */
  function Filled(kernel: seq<byte>, size: nat): seq<byte> {
    kernel + if |kernel| < size then Streams.Zeros(size - |kernel|) else []
  }

  /** What one update leaves: limine.conf boots the slot it went to. */
  lemma AfterOne(trust: Trust, store: Store, d: Image, t: Tree, one: Release)
    requires WellFormed(store.volume, d, t) && store.volume.Holds(d) && SlotsApart(store.volume)
    requires ConfBoots(store.volume, d) == Some(store.slot) && Genuine(trust, one) && trust.parse(one.signed).Some?
    requires var m := trust.parse(one.signed).value;
             Installable(store.volume, d, Other(store.slot), one.kernel, m, trust.compress, trust.isText)
    requires !HasTarget(ConfText(store.volume, d, trust.isText).value, Other(store.slot))
    ensures var v, target, e := store.volume, Other(store.slot), Replay(d, LogOf(trust, store, d, one));
            && WellFormed(v, e, t) && v.Holds(e) && ConfBoots(v, e) == Some(target)
            && Find(v, e, SlotPath(target)) == Find(v, d, SlotPath(target)) && Find(v, d, SlotPath(target)).Some?
            && !Find(v, d, SlotPath(target)).value.directory && |one.kernel| <= Find(v, d, SlotPath(target)).value.size
            && SlotBytes(v, e, target) == Some(Filled(one.kernel, Find(v, d, SlotPath(target)).value.size))
  {
    hide WellFormed, SlotsApart, Find, SlotPath, ConfPath, FileBytes, OverwriteLog, Replay, InstallLog, HasTarget, Boots,
      Switched, ConfText, HasLine, Sha256s.Digest;
    var v, target, m := store.volume, Other(store.slot), trust.parse(one.signed).value;
    assert SlotPath(target) != [] by {
      PathsAre();
    }
    InstallEnds(v, d, t, target, one.kernel, m, trust.compress, trust.isText);
    AcceptableIs(v, d, target, one.kernel, m, trust.compress, trust.isText);
    IsOverwritable(v, d, t, SlotPath(target), one.kernel);
    var e := Replay(d, LogOf(trust, store, d, one));
    ConfTextIs(v, d, trust.isText);
    UpdateTakesEffect(ConfText(v, d, trust.isText).value, store.slot);
    SlotFile(v, d, t, target, one.kernel);
    var n: nat :| Contents(v, e, SlotPath(target)) == Some(File(one.kernel + Streams.Zeros(n)));
    OverwriteFits(v, d, t, SlotPath(target), one.kernel);
    OverwriteAgain(v, e, t, SlotPath(target), one.kernel);
    SlotFile(v, e, t, target, one.kernel);
  }

  /** What fits a file is not refused. */
  lemma OverwriteAgain(v: Volume, d: Image, t: Tree, path: Path, data: seq<byte>)
    requires WellFormed(v, d, t) && v.Holds(d) && path != [] && Find(v, d, path).Some?
    requires !Find(v, d, path).value.directory && |data| <= Find(v, d, path).value.size
    ensures Overwritable(v, d, t, path, data)
  {
    hide WellFormed, Find, OverwriteLog;
    FindOk(v, d, t, path);
    SizeOk(v, d, t, Find(v, d, path).value, data);
  }

  lemma LogSome(trust: Trust, store: Store, e: Image, t: Tree, two: Release)
    requires WellFormed(store.volume, e, t) && store.volume.Holds(e) && SlotsApart(store.volume) && Genuine(trust, two)
    requires var entry := Find(store.volume, e, SlotPath(Other(store.slot)));
             entry.Some? && !entry.value.directory && |two.kernel| <= entry.value.size
    ensures trust.parse(two.signed).Some? && LogOf(trust, store, e, two) != []
  {
    hide WellFormed, SlotsApart, Find, SlotPath, OverwriteLog, InstallLog, Sha256s.Digest;
    var v, target, m := store.volume, Other(store.slot), trust.parse(two.signed).value;
    assert SlotPath(target) != [] by {
      PathsAre();
    }
    OverwriteAgain(v, e, t, SlotPath(target), two.kernel);
    AcceptableIs(v, e, target, two.kernel, m, trust.compress, trust.isText);
    InstallSafe(v, e, t, target, two.kernel, m, trust.compress, trust.isText);
  }

  /** Its second kernel comes late. */
  lemma LastLate(trust: Trust, store: Store, d: Image, e: Image, inputs: seq<Input>, logs: seq<seq<Event>>,
      w1: seq<Event>,
      w2: seq<Event>, one: Release, two: Release, before: seq<byte>)
    requires store.volume.Holds(d) && store.volume.Holds(e) && e == Replay(d, w1) && w2 != []
    requires inputs == Update(one) + Update(two) && logs == [[], [], [], w1, [], [], [], w2]
    requires ConfBoots(store.volume, e) == Some(Other(store.slot))
    requires SlotBytes(store.volume, e, Other(store.slot)) == Some(before)
    ensures Rewrite(before, two.kernel) in Rewrites(store.volume, d, inputs, logs, store.slot)
  {
    hide Replay, OneLog, ConfBoots, SlotBytes, Rewrites;
    var front := logs[..7];
    assert front == [[], [], []] + [w1] + [[], [], []] && logs == front + [w2];
    OneLogConcat([[], [], []] + [w1], [[], [], []]);
    OneLogMore([[], [], []], w1);
    NoneOf(d);
    assert OneLog(front) == [] + w1 + [] == w1;
    assert inputs == inputs[..7] + [Answered(two.kernel)];
    RewritesMore(store.volume, d, inputs[..7], Answered(two.kernel), front, w2, store.slot);
  }

  lemma FilledVerified(trust: Trust, r: Release, size: nat)
    requires Genuine(trust, r) && |r.kernel| <= size
    ensures Verified(trust, Filled(r.kernel, size)) && |Filled(r.kernel, size)| == size
  {
    hide Authorized;
    assert Filled(r.kernel, size) == r.kernel + Streams.Zeros(size - |r.kernel|);
  }

  /** Two updates in a row, each with a genuine release, the second one's kernel
      unlike the first one's in two sectors: a stop in the second one can leave a
      machine that boots neither kernel. */
  lemma SecondFails(trust: Trust, store: Store, s: State, d: Image, t: Tree, one: Release, two: Release)
    requires WellFormed(store.volume, d, t) && store.volume.Holds(d) && SlotsApart(store.volume) && !s.Busy()
    requires ConfBoots(store.volume, d) == Some(store.slot)
    requires Genuine(trust, one) && Genuine(trust, two) && trust.parse(one.signed).Some?
    requires var m := trust.parse(one.signed).value;
             Installable(store.volume, d, Other(store.slot), one.kernel, m, trust.compress, trust.isText)
    requires !HasTarget(ConfText(store.volume, d, trust.isText).value, Other(store.slot))
    requires var size := Find(store.volume, d, SlotPath(Other(store.slot))).value.size;
             && |two.kernel| <= size && TwoSectors(Filled(one.kernel, size), two.kernel)
             && OnlyEnds(trust, Filled(one.kernel, size), two.kernel)
    ensures var logs := Course(trust, Some(store), s, d, Update(one) + Update(two)).1;
            !AlwaysBootable(store.volume, d, OneLog(logs), store.slot, trust)
  {
    hide WellFormed, SlotsApart, Find, SlotPath, ConfPath, OverwriteLog, Replay, InstallLog, Installable, ConfText,
      HasTarget, Sha256s.Digest, Course, OneLog, AlwaysBootable, ConfBoots, SlotBytes, TwoSectors, OnlyEnds, Verified,
      Mixture, EveryMixture, Authorized, Rewrites, Filled;
    var v, target, inputs := store.volume, Other(store.slot), Update(one) + Update(two);
    AfterOne(trust, store, d, t, one);
    var size := Find(v, d, SlotPath(target)).value.size;
    UpdateCourse(trust, store, s, d, one);
    var x, e := Course(trust, Some(store), s, d, Update(one)).0, Replay(d, LogOf(trust, store, d, one));
    UpdateCourse(trust, store, x, e, two);
    RunConcat(trust, Some(store), s, d, Update(one), Update(two));
    var logs := Course(trust, Some(store), s, d, inputs).1;
    LogSome(trust, store, e, t, two);
    assert logs == [[], [], [], LogOf(trust, store, d, one), [], [], [], LogOf(trust, store, e, two)];
    LastLate(trust, store, d, e, inputs, logs, LogOf(trust, store, d, one), LogOf(trust, store, e, two), one, two,
      Filled(one.kernel, size));
    var last := Rewrite(Filled(one.kernel, size), two.kernel);
    assert last in Rewrites(v, d, inputs, logs, store.slot);
    FilledVerified(trust, one, size);
    TwoEnds(trust, last.before, last.kernel, two.signed, two.signature);
    RunExact(trust, store, s, d, t, inputs);
  }
}
