/** The small TCP client on values: what each segment of the server and each turn
    of the main loop makes of a conversation, and what is sent. */
module FetchSteps {
  import opened Base
  import opened Streams
  import opened Answers
  import opened ChaCha
  import opened TlsRecords
  import opened Tls

  /** Sequence numbers have 32 bits. */
  const SERIALS: nat := 0x1_0000_0000
  /** How far past the body's limit an answer may go. */
  const HEAD_ROOM: nat := 16_000
  /** How long a conversation may be silent, and a SYN unanswered, in milliseconds. */
  const PATIENCE: nat := 8_000
  const SYN_PATIENCE: nat := 900
  /** How much data a segment carries. */
  const SEGMENT: nat := 1_400

  datatype Phase = Connecting | Reading | Done | Failed

  datatype Segment = Segment(sequence: nat, acknowledged: nat, fin: bool, syn: bool, rst: bool, ack: bool,
      data: seq<byte>)

  datatype Flags = Syn | Ack | AckPush | AckFin

  /** A segment of ours. */
  datatype Out = Out(flags: Flags, sequence: nat, acknowledged: nat, data: seq<byte>)

  /** What a conversation is for: how its answer is read, how much of it is kept,
      how many redirects led here, and what is asked; for https, what the TLS
      client is given and its hello. */
  datatype Plan = Plan(readers: Readers, limit: nat, redirects: nat, request: seq<byte>, config: Option<Config>,
                       hello: seq<byte>)

  datatype Talk = Talk(phase: Phase, sequence: nat, acknowledged: nat, raw: seq<byte>, tls: Option<State>, asked: bool,
                       follow: Option<string>, body: seq<byte>, code: nat, since: nat, sent: seq<Out>)
  {
    /** The answer so far. */
    function Heard(): seq<byte> {
      if tls.Some? then tls.value.received else raw
    }

    function Over(): bool {
      phase == Done || phase == Failed
    }

    function With(flags: Flags): Talk {
      this.(sent := sent + [Out(flags, sequence, acknowledged, [])])
    }

    /** Data sent, a segment at a time. */
    function Told(data: seq<byte>): Talk
      decreases |data|
    {
      if data == [] then this
      else
        var piece := data[..Lower(SEGMENT, |data|)];
        this.(sent := sent + [Out(AckPush, sequence, acknowledged, piece)],
              sequence := (sequence + |piece|) % SERIALS).Told(data[|piece|..])
    }
  }

  /** The server's SYN: the conversation starts. */
  function Begun(p: Plan, t: Talk, s: Segment, now: nat): Talk {
    var u := t.(sequence := s.acknowledged, acknowledged := (s.sequence + 1) % SERIALS, phase := Reading,
                since := now).With(Ack);
    if u.tls.Some? then u.(tls := Some(u.tls.value.(said := u.tls.value.said + [p.hello]))).Told(PlainRecord(HANDSHAKE,
        p.hello))
    else u.Told(p.request).(asked := true)
  }

  function Sealed(p: Plan, keys: Keys, cipher: Cipher): seq<byte> {
    Joined(SealAll(cipher, keys, Items(Chunks(p.request))))
  }

  /** A piece of the answer; false when it is refused. */
  function TakenIn(p: Plan, t: Talk, data: seq<byte>): (Talk, bool) {
    if t.tls.None? || p.config.None? then
      if |t.raw| + |data| > p.limit + HEAD_ROOM then (t, false) else (t.(raw := t.raw + data), true)
    else
      var config := p.config.value;
      var r := Feed(config, t.tls.value, data);
      var u := t.(tls := Some(r.state));
      if |r.state.received| > p.limit + HEAD_ROOM then (u, false)
      else if r.state.stage == Connected && !t.asked then
        if r.state.write.None? then (u, false)
        else
          var keys := r.state.write.value;
          var w := u.(tls := Some(r.state.(write := Some(keys.After(|Chunks(p.request)|)))));
          if r.outcome.Broken? then (w, false)
          else (w.Told(r.out).Told(Sealed(p, keys, config.cipher)).(asked := true), true)
      else if r.outcome.Broken? then (u, false)
      else (u.Told(r.out), true)
  }

  /** The conversation is over: what came is turned into what is shown. */
  function Concluded(p: Plan, t: Talk): Talk {
    var u := t.(code := CodeOf(p.readers, t.Heard()));
    match Answer(p.readers, t.Heard(), p.limit, p.redirects)
    case GivenUp => u.(phase := Failed)
    case Follow(next) => u.(follow := Some(next), phase := Done)
    case Page(page) => u.(body := page, follow := None, phase := Done)
  }

  /** The next piece of the stream, if this is it. */
  function Nexted(p: Plan, t: Talk, s: Segment, now: nat): (Talk, bool) {
    if s.data == [] || s.sequence != t.acknowledged then (t, true)
    else
      var u := t.(acknowledged := (t.acknowledged + |s.data|) % SERIALS, since := now).With(Ack);
      var (w, ok) := TakenIn(p, u, s.data);
      if ok then (w, true) else (w.(phase := Failed), false)
  }

  /** One segment; true when the conversation is over. */
  function Arrived(p: Plan, t: Talk, s: Segment, now: nat): (Talk, bool) {
    if s.rst then (t.(phase := Failed), true)
    else if t.phase == Connecting && s.syn && s.ack then (Begun(p, t, s, now), false)
    else if t.phase != Reading then (t, false)
    else
      var (u, ok) := Nexted(p, t, s, now);
      if !ok then (u, true)
      else if s.fin then
        (Concluded(p, u.(acknowledged := (u.acknowledged + 1) % SERIALS).With(AckFin)), true)
      else (u, false)
  }

  function AllArrived(p: Plan, t: Talk, segments: seq<Segment>, now: nat): (Talk, bool)
    decreases |segments|
  {
    if segments == [] then (t, false)
    else
      var (u, over) := Arrived(p, t, segments[0], now);
      if over then (u, true) else AllArrived(p, u, segments[1..], now)
  }

  /** A SYN that had no answer for a while goes out again. */
  function Woken(t: Talk, now: nat): Talk {
    if t.phase == Connecting && now > t.since + SYN_PATIENCE then
      t.(since := now, sent := t.sent + [Out(Syn, t.sequence, 0, [])])
    else t
  }

  /** After the segments: a conversation the server has closed, or that has been
      silent too long, is over. */
  function Settled(p: Plan, t: Talk, now: nat): Talk {
    if t.tls.Some? && t.tls.value.stage == Closed then Concluded(p, t)
    else if now > t.since + PATIENCE then
      if t.phase == Reading && t.Heard() != [] then Concluded(p, t) else t.(phase := Failed)
    else t
  }

  /** A turn of the main loop. */
  function Stepped(p: Plan, t: Talk, segments: seq<Segment>, now: nat): Talk {
    if t.Over() then t
    else
      var (u, over) := AllArrived(p, Woken(t, now), segments, now);
      if over then u else Settled(p, u, now)
  }
}
