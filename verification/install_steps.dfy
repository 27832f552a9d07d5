/** The installer on values: what each call of the main loop makes of its state,
    and what it writes to the disk. */
module InstallSteps {
  import opened Base
  import opened Blocks
  import opened BootText
  import opened FatLayout
  import opened FatTree
  import opened Sha256s
  import opened Install

  datatype Step = Idle | FetchingManifest | FetchingSignature | FetchingKernel | Finished

  datatype Status = Nothing | Working | Failed | Installed(build: seq<byte>, slot: Slot)

  /** How the download under way stands. */
  datatype Download = Running | Broken | Arrived(code: nat, body: seq<byte>)

  /** Where the machine started from: its volume and its slot. */
  datatype Store = Store(volume: Volume, slot: Slot)

  /** What the installer is built on: the release key's signature check, the
      manifest reader, and which builds are newer than this one. */
  datatype Trust = Trust(verify: (seq<byte>, seq<byte>) -> bool, parse: seq<byte> -> Option<Manifest>,
                         newer: seq<byte> -> bool, compress: Compress, isText: seq<byte> -> bool)

  /** One call of the main loop: an update asked for, or the installer moved
      along. `started` is whether the next download could be started. */
  datatype Input = Start(manifest: Option<seq<nat>>, signature: Option<seq<nat>>, started: bool)
                 | Poll(download: Download, started: bool)

  datatype State = State(step: Step, status: Status, signaturePath: seq<nat>, manifestBytes: seq<byte>,
                         manifest: Option<Manifest>, signature: seq<byte>)
  {
    predicate Busy() {
      step != Idle && step != Finished
    }

    function Stopped(): State {
      this.(step := Finished, status := Failed)
    }
  }

  // ---- What a call does -------------------------------------------------------------------------

  /** An update asked for: nothing happens while one is under way. */
  function Begun(s: State, path: Option<seq<nat>>, signatureAt: Option<seq<nat>>, started: bool): State {
    if s.Busy() then s
    else if path.None? || signatureAt.None? then s.Stopped()
    else
      var u := s.(signaturePath := signatureAt.value, manifestBytes := [], manifest := None);
      if started then u.(step := FetchingManifest, status := Working) else u.Stopped()
  }

  /** The signature arrived: the checks before the kernel is fetched. */
  function Judged(trust: Trust, s: State, body: seq<byte>, hasStore: bool, started: bool): State {
    if |body| != 64 || !trust.verify(s.manifestBytes, body) then s.Stopped()
    else
      var read := trust.parse(s.manifestBytes);
      if read.None? || !trust.newer(read.value.build) || !hasStore then s.Stopped()
      else
        var u := s.(manifest := read, signature := body);
        if started then u.(step := FetchingKernel, status := Working) else u.Stopped()
  }

  ghost predicate Ready(store: Option<Store>, d: Image) {
    store.Some? ==> store.value.volume.Holds(d)
  }

  /** The kernel arrived: what it is written with. */
  ghost function Written(trust: Trust, store: Option<Store>, s: State, d: Image, kernel: seq<byte>): (r: (State,
      seq<Event>))
    requires Ready(store, d)
  {
    if s.manifest.None? || store.None? then (s.Stopped(), [])
    else
      var v, target, m := store.value.volume, Other(store.value.slot), s.manifest.value;
      var done := Installable(v, d, target, kernel, m, trust.compress, trust.isText);
      (if done then s.(step := Finished, status := Installed(m.build, target)) else s.Stopped(),
       InstallLog(v, d, target, kernel, m, trust.compress, trust.isText))
  }

  ghost function Moved(trust: Trust, store: Option<Store>, s: State, d: Image, download: Download, started: bool):
      (State, seq<Event>)
    requires Ready(store, d)
  {
    if !s.Busy() || download.Running? then (s, [])
    else if download.Broken? || download.code != 200 then (s.Stopped(), [])
    else
      match s.step
      case FetchingManifest =>
        var u := s.(manifestBytes := download.body);
        (if started then u.(step := FetchingSignature, status := Working) else u.Stopped(), [])
      case FetchingSignature => (Judged(trust, s, download.body, store.Some?, started), [])
      case FetchingKernel => Written(trust, store, s, d, download.body)
      case Idle => (s, [])
      case Finished => (s, [])
  }

  ghost function Next(trust: Trust, store: Option<Store>, s: State, d: Image, input: Input): (State, seq<Event>)
    requires Ready(store, d)
  {
    match input
    case Start(path, signatureAt, started) => (Begun(s, path, signatureAt, started), [])
    case Poll(download, started) => Moved(trust, store, s, d, download, started)
  }

  // ---- Any run ----------------------------------------------------------------------------------

  ghost function OneLog(logs: seq<seq<Event>>): seq<Event> {
    if logs == [] then [] else OneLog(logs[..|logs| - 1]) + logs[|logs| - 1]
  }

  lemma OneLogMore(logs: seq<seq<Event>>, w: seq<Event>)
    ensures OneLog(logs + [w]) == OneLog(logs) + w
  {
    assert (logs + [w])[..|logs|] == logs;
  }

  lemma {:induction false} OneLogConcat(a: seq<seq<Event>>, b: seq<seq<Event>>)
    ensures OneLog(a + b) == OneLog(a) + OneLog(b)
  {
    if b == [] {
      assert a + b == a;
    } else {
      var n := |b| - 1;
      assert a + b == a + b[..n] + [b[n]];
      OneLogMore(a + b[..n], b[n]);
      OneLogConcat(a, b[..n]);
    }
  }

  /** What the inputs make of the state, and what is written with each of them. */
  ghost function Course(trust: Trust, store: Option<Store>, s: State, d: Image, inputs: seq<Input>):
      (r: (State, seq<seq<Event>>))
    requires Ready(store, d)
    ensures |r.1| == |inputs|
  {
    if inputs == [] then (s, [])
    else
      var n := |inputs| - 1;
      var (u, logs) := Course(trust, store, s, d, inputs[..n]);
      var (x, w) := Next(trust, store, u, Replay(d, OneLog(logs)), inputs[n]);
      (x, logs + [w])
  }

  lemma RunMore(trust: Trust, store: Option<Store>, s: State, d: Image, inputs: seq<Input>, input: Input)
    requires Ready(store, d)
    ensures var (u, logs) := Course(trust, store, s, d, inputs);
            && Ready(store, Replay(d, OneLog(logs)))
            && var (x, w) := Next(trust, store, u, Replay(d, OneLog(logs)), input);
               Course(trust, store, s, d, inputs + [input]) == (x, logs + [w])
  {
    hide Next, OneLog;
    assert (inputs + [input])[..|inputs|] == inputs;
  }

  lemma RunNone(trust: Trust, store: Option<Store>, s: State, d: Image)
    requires Ready(store, d)
    ensures Course(trust, store, s, d, []) == (s, [])
  {
  }

  lemma RunReady(trust: Trust, store: Option<Store>, s: State, d: Image, inputs: seq<Input>)
    requires Ready(store, d)
    ensures Ready(store, Replay(d, OneLog(Course(trust, store, s, d, inputs).1)))
  {
    hide Course, OneLog, Replay;
  }

  /** A run goes on where the one before it ended. */
  lemma {:induction false} RunConcat(trust: Trust, store: Option<Store>, s: State, d: Image, a: seq<Input>,
      b: seq<Input>)
    requires Ready(store, d)
    ensures var (u, logs) := Course(trust, store, s, d, a);
            && Ready(store, Replay(d, OneLog(logs)))
            && var (x, more) := Course(trust, store, u, Replay(d, OneLog(logs)), b);
               Course(trust, store, s, d, a + b) == (x, logs + more)
  {
    hide Next, OneLog, Replay, Course, Ready;
    var (u, logs) := Course(trust, store, s, d, a);
    RunReady(trust, store, s, d, a);
    if b == [] {
      RunNone(trust, store, u, Replay(d, OneLog(logs)));
      assert a + b == a && logs + [] == logs;
    } else {
      var n := |b| - 1;
      RunConcat(trust, store, s, d, a, b[..n]);
      var e := Replay(d, OneLog(logs));
      var (y, some) := Course(trust, store, u, e, b[..n]);
      RunMore(trust, store, u, e, b[..n], b[n]);
      RunMore(trust, store, s, d, a + b[..n], b[n]);
      assert b == b[..n] + [b[n]] && a + b == a + b[..n] + [b[n]];
      OneLogConcat(logs, some);
      ReplayConcat(d, OneLog(logs), OneLog(some));
      var w := Next(trust, store, y, Replay(e, OneLog(some)), b[n]).1;
      assert logs + (some + [w]) == logs + some + [w];
    }
  }

  // ---- Nothing is written before the checks -----------------------------------------------------

  /** Every check the disk waits for: these bytes carry the release key's
      signature, they are a manifest, of a newer build, and the kernel is the
      one it describes. */
  ghost predicate Authorized(trust: Trust, signed: seq<byte>, signature: seq<byte>, kernel: seq<byte>) {
    && |signature| == 64 && trust.verify(signed, signature)
    && trust.parse(signed).Some? && trust.newer(trust.parse(signed).value.build)
    && |kernel| == trust.parse(signed).value.size && Digest(trust.compress, kernel) == trust.parse(signed).value.sha256
  }

  /** What arrived whole, if something did. */
  function Body(input: Input): Option<seq<byte>> {
    if input.Poll? && input.download.Arrived? && input.download.code == 200 then Some(input.download.body) else None
  }

  /** What arrived with input `k` is a kernel, its signed manifest arrived before,
      and the manifest's signature in between. */
  ghost predicate CheckedBefore(trust: Trust, inputs: seq<Input>, i: nat, j: nat, k: nat) {
    && i < j < k < |inputs| && Body(inputs[i]).Some? && Body(inputs[j]).Some? && Body(inputs[k]).Some?
    && Authorized(trust, Body(inputs[i]).value, Body(inputs[j]).value, Body(inputs[k]).value)
  }

  /** While the kernel is fetched, the manifest is one that passed the checks. */
  predicate Checked(trust: Trust, s: State) {
    s.step == FetchingKernel ==>
      && |s.signature| == 64 && trust.verify(s.manifestBytes, s.signature)
      && s.manifest.Some? && trust.parse(s.manifestBytes) == s.manifest && trust.newer(s.manifest.value.build)
  }

  /** Where the manifest and its signature came from, while they are needed. */
  ghost predicate Sourced(trust: Trust, s: State, inputs: seq<Input>, m: nat, g: nat) {
    && Checked(trust, s)
    && (s.step == FetchingSignature ==> m < |inputs| && Body(inputs[m]) == Some(s.manifestBytes))
    && (s.step == FetchingKernel ==>
          && m < g < |inputs| && Body(inputs[m]) == Some(s.manifestBytes)
          && Body(inputs[g]) == Some(s.signature))
  }

  /** What it takes for an input to write. */
  lemma NextWrites(trust: Trust, store: Option<Store>, s: State, d: Image, input: Input)
    requires Ready(store, d) && Checked(trust, s) && Next(trust, store, s, d, input).1 != []
    ensures s.step == FetchingKernel && store.Some? && s.manifest.Some? && Body(input).Some?
    ensures var v, target := store.value.volume, Other(store.value.slot);
            && Authorized(trust, s.manifestBytes, s.signature, Body(input).value)
            && Acceptable(v, d, target, Body(input).value, s.manifest.value, trust.compress)
            && Next(trust, store, s, d, input).1
               == InstallLog(v, d, target, Body(input).value, s.manifest.value, trust.compress, trust.isText)
  {
    hide Digest, Find, SlotPath, SwitchLog, Installable, Replay;
  }

  lemma WrittenStops(trust: Trust, store: Option<Store>, s: State, d: Image, kernel: seq<byte>)
    requires Ready(store, d)
    ensures Written(trust, store, s, d, kernel).0.step == Finished
  {
    hide Installable, InstallLog;
  }

  /** One more input. */
  lemma SourcedNext(trust: Trust, store: Option<Store>, s: State, d: Image, inputs: seq<Input>, input: Input, m: nat,
      g: nat) returns (m': nat, g': nat)
    requires Ready(store, d) && Sourced(trust, s, inputs, m, g)
    ensures Sourced(trust, Next(trust, store, s, d, input).0, inputs + [input], m', g')
    ensures Next(trust, store, s, d, input).1 != [] ==> CheckedBefore(trust, inputs + [input], m, g, |inputs|)
  {
    hide Digest, Written, Authorized, Replay;
    if Body(input).Some? {
      WrittenStops(trust, store, s, d, Body(input).value);
    }
    var x := Next(trust, store, s, d, input).0;
    m', g' := if x.step == FetchingSignature && s.step != FetchingSignature then |inputs| else m,
      if x.step == FetchingKernel && s.step != FetchingKernel then |inputs| else g;
    if Next(trust, store, s, d, input).1 != [] {
      NextWrites(trust, store, s, d, input);
    }
  }

  /** Whatever the inputs, the disk is written only with one that brings a kernel,
      after one that brought its signed manifest and one that brought the
      signature. */
  lemma {:induction false} RunOrdered(trust: Trust, store: Option<Store>, s: State, d: Image, inputs: seq<Input>)
    returns (m: nat, g: nat)
    requires Ready(store, d) && !s.Busy()
    ensures Sourced(trust, Course(trust, store, s, d, inputs).0, inputs, m, g)
    ensures forall k | 0 <= k < |inputs| && Course(trust, store, s, d, inputs).1[k] != [] ::
              exists i: nat, j: nat :: CheckedBefore(trust, inputs, i, j, k)
  {
    hide Next, OneLog, CheckedBefore, Sourced;
    if inputs == [] {
      m, g := 0, 0;
      assert Sourced(trust, s, inputs, m, g) by {
        NoSource(trust, s);
      }
    } else {
      var n := |inputs| - 1;
      var front, input := inputs[..n], inputs[n];
      assert inputs == front + [input];
      var i, j := RunOrdered(trust, store, s, d, front);
      RunMore(trust, store, s, d, front, input);
      var (u, logs) := Course(trust, store, s, d, front);
      m, g := SourcedNext(trust, store, u, Replay(d, OneLog(logs)), front, input, i, j);
      forall k | 0 <= k < n && logs[k] != []
        ensures exists i: nat, j: nat :: CheckedBefore(trust, inputs, i, j, k)
      {
        var a: nat, b: nat :| CheckedBefore(trust, front, a, b, k);
        StillChecked(trust, front, input, a, b, k);
      }
    }
  }

  lemma NoSource(trust: Trust, s: State)
    requires !s.Busy()
    ensures Sourced(trust, s, [], 0, 0)
  {
  }

  lemma StillChecked(trust: Trust, inputs: seq<Input>, input: Input, i: nat, j: nat, k: nat)
    requires CheckedBefore(trust, inputs, i, j, k)
    ensures CheckedBefore(trust, inputs + [input], i, j, k)
  {
    hide Authorized;
  }
}
