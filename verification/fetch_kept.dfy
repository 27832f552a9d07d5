/** What every turn of a conversation keeps: what is taken in is a prefix of the
    server's stream, whatever the network loses, repeats, reorders or cuts, and
    what is shown is what that prefix says. */
module FetchKept {
  import opened Base
  import opened Answers
  import opened TlsRecords
  import opened Tls
  import opened FetchSteps

  /** The other end: what it sends, and the number it starts from. */
  datatype Server = Server(stream: seq<byte>, start: nat)

  /** A piece of the server's stream, from byte `at` on. */
  predicate Piece(server: Server, s: Segment, at: nat) {
    && at + |s.data| <= |server.stream| && s.data == server.stream[at..at + |s.data|]
    && s.sequence == (server.start + 1 + at) % SERIALS
  }

  /** A segment the server may have sent, at any time, cut anyhow: its SYN, or a
      piece of its stream. A number tells bytes apart within 4 GiB. */
  ghost predicate Genuine(server: Server, s: Segment) {
    if s.syn then s.sequence == server.start % SERIALS && s.data == []
    else exists at: nat :: Piece(server, s, at) && at + |s.data| < SERIALS
  }

  /** Two places of the stream have the same number exactly when they are a
      multiple of 4 GiB apart. */
  lemma SameSerial(start: nat, a: nat, b: nat)
    ensures (start + 1 + a) % SERIALS == (start + 1 + b) % SERIALS <==> a % SERIALS == b % SERIALS
  {
  }

  /** The next piece is the one whose number is expected. */
  lemma NextPiece(server: Server, s: Segment, taken: nat)
    requires Genuine(server, s) && !s.syn && s.data != [] && taken <= |server.stream| && taken < SERIALS
    requires s.sequence == (server.start + 1 + taken) % SERIALS
    ensures taken + |s.data| <= |server.stream| && taken + |s.data| < SERIALS
    ensures server.stream[..taken] + s.data == server.stream[..taken + |s.data|]
    ensures (s.sequence + |s.data|) % SERIALS == (server.start + 1 + (taken + |s.data|)) % SERIALS
  {
    var at: nat :| Piece(server, s, at) && at + |s.data| < SERIALS;
    SameSerial(server.start, at, taken);
    Small(at, taken);
    Moved(server.start + 1 + taken, |s.data|);
  }

  lemma Small(a: nat, b: nat)
    requires a < SERIALS && b < SERIALS && a % SERIALS == b % SERIALS
    ensures a == b
  {
  }

  lemma Moved(x: nat, n: nat)
    ensures (x % SERIALS + n) % SERIALS == (x + n) % SERIALS
  {
  }

  // ---- What is taken of some segments -----------------------------------------------------------

  /** What is taken of one segment: its data, if it is the next piece. */
  function Got(phase: Phase, expected: nat, s: Segment): seq<byte> {
    if phase == Reading && !s.rst && s.data != [] && s.sequence == expected then s.data else []
  }

  function PhaseAfter(phase: Phase, s: Segment): Phase {
    if phase == Connecting && s.syn && s.ack then Reading else phase
  }

  function Expected(phase: Phase, expected: nat, s: Segment): nat {
    if phase == Connecting then if s.syn && s.ack then (s.sequence + 1) % SERIALS else expected
    else (expected + |Got(phase, expected, s)|) % SERIALS
  }

  /** What is taken of the segments of a turn, up to the one that ends the
      conversation. */
  function Arrivals(phase: Phase, expected: nat, segments: seq<Segment>): seq<byte>
    decreases |segments|
  {
    if segments == [] || segments[0].rst then []
    else
      var s := segments[0];
      var got := Got(phase, expected, s);
      if phase == Reading && s.fin then got
      else got + Arrivals(PhaseAfter(phase, s), Expected(phase, expected, s), segments[1..])
  }

  /** Segments that are the next pieces of the stream, one after the other. */
  predicate Consecutive(server: Server, at: nat, segments: seq<Segment>)
    decreases |segments|
  {
    segments == [] ||
    var s := segments[0];
    !s.rst && !s.fin && !s.syn && s.data != [] && Piece(server, s, at)
        && Consecutive(server, at + |s.data|, segments[1..])
  }

  function Total(segments: seq<Segment>): nat
    decreases |segments|
  {
    if segments == [] then 0 else |segments[0].data| + Total(segments[1..])
  }

  /** A stream that comes in order is taken whole. */
  lemma {:induction false} InOrderTaken(server: Server, at: nat, segments: seq<Segment>)
    requires at <= |server.stream| && Consecutive(server, at, segments)
    ensures at + Total(segments) <= |server.stream|
    ensures Arrivals(Reading, (server.start + 1 + at) % SERIALS, segments) == server.stream[at..at + Total(segments)]
    decreases |segments|
  {
    hide Arrivals;
    if segments == [] {
      ArrivalsEnd(Reading, (server.start + 1 + at) % SERIALS, []);
    } else {
      var s := segments[0];
      ArrivalsFirst(segments);
      Moved(server.start + 1 + at, |s.data|);
      InOrderTaken(server, at + |s.data|, segments[1..]);
      assert server.stream[at..at + Total(segments)]
          == server.stream[at..at + |s.data|] + server.stream[at + |s.data|..at + Total(segments)];
    }
  }

  lemma ArrivalsFirst(segments: seq<Segment>)
    requires segments != [] && !segments[0].rst && !segments[0].fin && !segments[0].syn && segments[0].data != []
    ensures var s := segments[0];
            Arrivals(Reading, s.sequence, segments) == s.data + Arrivals(Reading, (s.sequence + |s.data|) % SERIALS,
                segments[1..])
  {
  }

  // ---- A TLS client along the way ---------------------------------------------------------------

  /** A client that was fed `bytes`, piece by piece, is where one that is fed them
      at once would be, its keys for writing aside once it has asked. */
  ghost predicate Following(c: Config, hello: seq<byte>, s: State, bytes: seq<byte>, asked: bool) {
    var heard := Feed(c, Started(hello), bytes);
    && !heard.outcome.Broken?
    && s.received == heard.state.received && s.stage == heard.state.stage
    && (heard.outcome.Ended? ==> s.stage == Closed)
    && (heard.outcome.Running? ==> s == heard.state.(write := s.write))
    && (!asked && heard.outcome.Running? ==> s.write == heard.state.write)
    && (asked ==> Late(s))
  }

  lemma FollowingStart(c: Config, hello: seq<byte>)
    ensures Following(c, hello, Started(hello), [], false)
  {
    hide Feed;
    FeedNothing(c, Started(hello));
  }

  lemma FollowingMore(c: Config, hello: seq<byte>, s: State, bytes: seq<byte>, data: seq<byte>, asked: bool)
    requires Following(c, hello, s, bytes, asked) && !Feed(c, s, data).outcome.Broken?
    ensures Following(c, hello, Feed(c, s, data).state, bytes + data, asked)
  {
    hide Feed;
    var heard := Feed(c, Started(hello), bytes);
    Tls.Cut(c, Started(hello), bytes, data);
    FeedEnded(c, s, data);
    if heard.outcome.Running? {
      if asked {
        FeedAside(c, heard.state, data, s.write);
      } else {
        assert s == heard.state.(write := s.write) == heard.state;
      }
    } else {
      FeedAside(c, s, data, s.write);
    }
  }

  lemma FollowingAsked(c: Config, hello: seq<byte>, s: State, bytes: seq<byte>, asked: bool, w: Option<Keys>)
    requires Following(c, hello, s, bytes, asked) && s.stage == Connected
    ensures Following(c, hello, s.(write := w), bytes, true)
  {
    hide Feed;
  }

  // ---- What is kept -----------------------------------------------------------------------------

  /** What a TLS client makes of some bytes of the server. */
  ghost function HeardOf(p: Plan, bytes: seq<byte>): Fed
    requires p.config.Some?
  {
    Feed(p.config.value, Started(p.hello), bytes)
  }

  /** The answer that the bytes taken in make. */
  ghost function Reached(p: Plan, accepted: seq<byte>): seq<byte> {
    if p.config.None? then accepted else HeardOf(p, accepted).state.received
  }

  /** The answer so far, or the TLS client, is where everything taken in leads. */
  ghost predicate Taken(p: Plan, t: Talk, accepted: seq<byte>) {
    if p.config.None? then t.tls == None && t.raw == accepted
    else t.tls.Some? && Following(p.config.value, p.hello, t.tls.value, accepted, t.asked)
  }

  /** What is held of the answer is no more than the limit, and the room for its
      head. */
  predicate Bounded(p: Plan, t: Talk) {
    |t.Heard()| <= p.limit + HEAD_ROOM
  }

  ghost predicate Shown(p: Plan, t: Talk, accepted: seq<byte>) {
    match Answer(p.readers, Reached(p, accepted), p.limit, p.redirects)
    case Page(page) => t.body == page && |t.body| <= p.limit && t.follow == None
    case Follow(next) => t.follow == Some(next) && p.redirects < MAX_REDIRECTS
    case GivenUp => false
  }

  ghost predicate Kept(p: Plan, server: Server, t: Talk, accepted: seq<byte>) {
    && accepted <= server.stream && |accepted| < SERIALS && p.redirects <= MAX_REDIRECTS
    && p.config.Some? == t.tls.Some? && (t.phase != Failed ==> Bounded(p, t))
    && match t.phase
       case Connecting =>
         accepted == [] && t.raw == [] && !t.asked && (t.tls.Some? ==> t.tls.value == Started([]).(said := []))
       case Reading => t.acknowledged == (server.start + 1 + |accepted|) % SERIALS && Taken(p, t, accepted)
       case Done => Shown(p, t, accepted)
       case Failed => true
  }

  /** What is sent changes nothing else. */
  lemma {:induction false} ToldKeeps(t: Talk, data: seq<byte>)
    ensures t.Told(data) == t.(sequence := t.Told(data).sequence, sent := t.Told(data).sent)
    decreases |data|
  {
    if data != [] {
      var piece := data[..Lower(SEGMENT, |data|)];
      var u := t.(sent := t.sent + [Out(AckPush, t.sequence, t.acknowledged, piece)],
                  sequence := (t.sequence + |piece|) % SERIALS);
      ToldKeeps(u, data[|piece|..]);
    }
  }

  lemma KeptAside(p: Plan, server: Server, t: Talk, u: Talk, accepted: seq<byte>)
    requires u == t.(sequence := u.sequence, sent := u.sent, since := u.since)
    ensures Kept(p, server, t, accepted) <==> Kept(p, server, u, accepted)
    ensures Taken(p, t, accepted) <==> Taken(p, u, accepted)
  {
    hide Following, Answer, Feed;
  }

  lemma BegunKept(p: Plan, server: Server, t: Talk, s: Segment, now: nat)
    requires Kept(p, server, t, []) && t.phase == Connecting && Genuine(server, s) && s.syn
    ensures Kept(p, server, Begun(p, t, s, now), []) && Begun(p, t, s, now).phase == Reading
  {
    hide Following, Answer, Feed, Talk.Told, Genuine;
    var u := t.(sequence := s.acknowledged, acknowledged := (s.sequence + 1) % SERIALS, phase := Reading,
                since := now).With(Ack);
    SynNumber(server, s);
    if t.tls.Some? {
      var w := u.(tls := Some(u.tls.value.(said := u.tls.value.said + [p.hello])));
      assert [] + [p.hello] == [p.hello];
      FollowingStart(p.config.value, p.hello);
      ToldKeeps(w, PlainRecord(HANDSHAKE, p.hello));
    } else {
      ToldKeeps(u, p.request);
    }
  }

  lemma SynNumber(server: Server, s: Segment)
    requires Genuine(server, s) && s.syn
    ensures s.data == [] && (s.sequence + 1) % SERIALS == (server.start + 1) % SERIALS
  {
    Moved(server.start, 1);
  }

  /** A piece taken in: the answer, or the TLS client, stays where all pieces lead. */
  lemma TakenInKept(p: Plan, t: Talk, accepted: seq<byte>, data: seq<byte>)
    requires Taken(p, t, accepted) && p.config.Some? == t.tls.Some?
    ensures var (u, ok) := TakenIn(p, t, data);
            && u == t.(raw := u.raw, tls := u.tls, asked := u.asked, sequence := u.sequence, sent := u.sent)
            && u.tls.Some? == t.tls.Some?
            && (ok ==> Taken(p, u, accepted + data) && Bounded(p, u))
  {
    hide Following, Feed, Talk.Told, FetchSteps.Sealed, Keys.After;
    if t.tls.Some? {
      var config := p.config.value;
      var r := Feed(config, t.tls.value, data);
      if !r.outcome.Broken? {
        FollowingMore(config, p.hello, t.tls.value, accepted, data, t.asked);
        var u := t.(tls := Some(r.state));
        ToldKeeps(u, r.out);
        if r.state.stage == Connected && !t.asked && r.state.write.Some? {
          var keys := r.state.write.value;
          var write := Some(keys.After(|Chunks(p.request)|));
          FollowingAsked(config, p.hello, r.state, accepted + data, false, write);
          var w := u.(tls := Some(r.state.(write := write)));
          ToldKeeps(w, r.out);
          ToldKeeps(w.Told(r.out), FetchSteps.Sealed(p, keys, config.cipher));
        }
      }
    }
  }

  lemma NextedKept(p: Plan, server: Server, t: Talk, accepted: seq<byte>, s: Segment, now: nat)
    requires Kept(p, server, t, accepted) && t.phase == Reading && Genuine(server, s)
    ensures var (u, ok) := Nexted(p, t, s, now);
            && Kept(p, server, u, accepted + Got(Reading, t.acknowledged, s.(rst := false)))
            && u.phase == if ok then Reading else Failed
    ensures var (u, ok) := Nexted(p, t, s, now);
            ok ==> u.acknowledged == Expected(Reading, t.acknowledged, s.(rst := false))
  {
    hide Following, Answer, Feed, TakenIn, Genuine, Taken;
    if s.data == [] || s.sequence != t.acknowledged {
      assert accepted + [] == accepted;
      Reduced(server, accepted, t.acknowledged);
    } else {
      NotSyn(server, s);
      NextPiece(server, s, |accepted|);
      assert accepted == server.stream[..|accepted|];
      var u := t.(acknowledged := (t.acknowledged + |s.data|) % SERIALS, since := now).With(Ack);
      assert Taken(p, u, accepted) by {
        TakenAside(p, t, u, accepted);
      }
      TakenInKept(p, u, accepted, s.data);
    }
  }

  lemma Reduced(server: Server, accepted: seq<byte>, n: nat)
    requires n == (server.start + 1 + |accepted|) % SERIALS
    ensures (n + 0) % SERIALS == n
  {
  }

  lemma NotSyn(server: Server, s: Segment)
    requires Genuine(server, s) && s.data != []
    ensures !s.syn
  {
  }

  lemma TakenAside(p: Plan, t: Talk, u: Talk, accepted: seq<byte>)
    requires u.tls == t.tls && u.raw == t.raw && u.asked == t.asked
    ensures Taken(p, t, accepted) == Taken(p, u, accepted)
  {
    hide Following;
  }

  /** Turned into what is shown. */
  lemma ConcludedKept(p: Plan, server: Server, t: Talk, accepted: seq<byte>)
    requires Taken(p, t, accepted) && Bounded(p, t) && p.config.Some? == t.tls.Some?
    requires accepted <= server.stream && |accepted| < SERIALS && p.redirects <= MAX_REDIRECTS
    ensures var u := Concluded(p, t);
            && Kept(p, server, u, accepted) && u.phase in {Done, Failed} && t.Heard() == Reached(p, accepted)
            && (u.phase == Done <==> !Answer(p.readers, Reached(p, accepted), p.limit, p.redirects).GivenUp?)
  {
    hide Answer, Feed, CodeOf;
    FollowFew(p.readers, t.Heard(), p.limit, p.redirects);
    PageFits(p.readers, t.Heard(), p.limit, p.redirects);
  }

  /** One segment keeps it. */
  lemma ArrivedKept(p: Plan, server: Server, t: Talk, accepted: seq<byte>, s: Segment, now: nat)
    requires Kept(p, server, t, accepted) && t.phase in {Connecting, Reading} && Genuine(server, s)
    ensures var (u, over) := Arrived(p, t, s, now);
            && Kept(p, server, u, accepted + Got(t.phase, t.acknowledged, s))
            && (if over then u.phase in {Done, Failed} else u.phase in {Connecting, Reading})
            && (!over ==> u.phase == PhaseAfter(t.phase, s) && !s.rst && !(t.phase == Reading && s.fin)
                          && u.acknowledged == Expected(t.phase, t.acknowledged, s))
            && (over && u.phase == Done ==> t.phase == Reading && s.fin && !s.rst)
  {
    hide Following, Answer, Feed, Nexted, Begun, Concluded, Genuine, Taken, Shown;
    assert accepted + [] == accepted;
    if s.rst {
    } else if t.phase == Connecting {
      if s.syn && s.ack {
        BegunKept(p, server, t, s, now);
        BegunNumber(p, t, s, now);
      }
    } else {
      assert s.(rst := false) == s;
      NextedKept(p, server, t, accepted, s, now);
      var (u, ok) := Nexted(p, t, s, now);
      if ok && s.fin {
        var w := u.(acknowledged := (u.acknowledged + 1) % SERIALS).With(AckFin);
        var all := accepted + Got(Reading, t.acknowledged, s);
        TakenAside(p, u, w, all);
        ConcludedKept(p, server, w, all);
      }
    }
  }

  lemma BegunNumber(p: Plan, t: Talk, s: Segment, now: nat)
    ensures Begun(p, t, s, now).acknowledged == (s.sequence + 1) % SERIALS
  {
    hide Talk.Told;
    var u := t.(sequence := s.acknowledged, acknowledged := (s.sequence + 1) % SERIALS, phase := Reading,
                since := now).With(Ack);
    if t.tls.Some? {
      ToldKeeps(u.(tls := Some(u.tls.value.(said := u.tls.value.said + [p.hello]))), PlainRecord(HANDSHAKE, p.hello));
    } else {
      ToldKeeps(u, p.request);
    }
  }

  /** What is taken of the segments of a turn. */
  function GotOf(p: Plan, t: Talk, segments: seq<Segment>, now: nat): seq<byte>
    decreases |segments|
  {
    if segments == [] then []
    else
      var (u, over) := Arrived(p, t, segments[0], now);
      Got(t.phase, t.acknowledged, segments[0]) + if over then [] else GotOf(p, u, segments[1..], now)
  }

  /** All segments of a turn keep it, and what is taken of them is `Arrivals`. */
  lemma {:induction false} AllArrivedKept(p: Plan, server: Server, t: Talk, accepted: seq<byte>, segments: seq<Segment>,
      now: nat)
    requires Kept(p, server, t, accepted) && t.phase in {Connecting, Reading}
    requires forall s | s in segments :: Genuine(server, s)
    ensures var (u, over) := AllArrived(p, t, segments, now);
            var got := GotOf(p, t, segments, now);
            && Kept(p, server, u, accepted + got)
            && (if over then u.phase in {Done, Failed} else u.phase in {Connecting, Reading})
            && (u.phase != Failed ==> got == Arrivals(t.phase, t.acknowledged, segments))
    decreases |segments|
  {
    hide Following, Answer, Feed, Arrived, Genuine, Kept, Arrivals, Got, Expected, PhaseAfter;
    if segments == [] {
      assert accepted + [] == accepted;
      ArrivalsEnd(t.phase, t.acknowledged, []);
    } else {
      var s := segments[0];
      assert s in segments;
      ArrivedKept(p, server, t, accepted, s, now);
      var (u, over) := Arrived(p, t, s, now);
      var got := Got(t.phase, t.acknowledged, s);
      assert segments[0..] == segments;
      ArrivalsStep(t.phase, t.acknowledged, segments, 0, []);
      assert [] + Arrivals(t.phase, t.acknowledged, segments) == Arrivals(t.phase, t.acknowledged, segments);
      assert [] + got == got == got + [];
      if !over {
        AllArrivedKept(p, server, u, accepted + got, segments[1..], now);
        var more := GotOf(p, u, segments[1..], now);
        assert accepted + got + more == accepted + (got + more);
      }
    }
  }

  lemma SettledKept(p: Plan, server: Server, t: Talk, accepted: seq<byte>, now: nat)
    requires Kept(p, server, t, accepted) && t.phase in {Connecting, Reading}
    ensures Kept(p, server, Settled(p, t, now), accepted)
  {
    hide Following, Answer, Feed, Concluded;
    if t.phase == Reading {
      ConcludedKept(p, server, t, accepted);
    }
  }

  /** A turn of the main loop keeps it. */
  lemma SteppedKept(p: Plan, server: Server, t: Talk, accepted: seq<byte>, segments: seq<Segment>, now: nat)
    requires Kept(p, server, t, accepted) && forall s | s in segments :: Genuine(server, s)
    ensures var got := if t.Over() then [] else GotOf(p, Woken(t, now), segments, now);
            && Kept(p, server, Stepped(p, t, segments, now), accepted + got)
            && (!t.Over() && Stepped(p, t, segments, now).phase != Failed ==>
                  got == Arrivals(t.phase, t.acknowledged, segments))
  {
    hide Following, Answer, Feed, AllArrived, Genuine, Kept, Arrivals, Settled, GotOf;
    assert accepted + [] == accepted;
    if !t.Over() {
      KeptAside(p, server, t, Woken(t, now), accepted);
      AllArrivedKept(p, server, Woken(t, now), accepted, segments, now);
      var (u, over) := AllArrived(p, Woken(t, now), segments, now);
      if !over {
        SettledKept(p, server, u, accepted + GotOf(p, Woken(t, now), segments, now), now);
        SettledPhase(p, u, now);
      }
    }
  }

  /** A failed conversation is not settled into another. */
  lemma SettledPhase(p: Plan, t: Talk, now: nat)
    ensures t.phase == Failed ==> Settled(p, t, now).phase in {Done, Failed}
  {
    hide Answer;
  }

  lemma ArrivalsEnd(phase: Phase, expected: nat, taken: seq<byte>)
    ensures taken + Arrivals(phase, expected, []) == taken
  {
  }

  lemma ArrivalsStep(phase: Phase, expected: nat, segments: seq<Segment>, i: nat, taken: seq<byte>)
    requires i < |segments|
    ensures
      var s, all := segments[i], taken + Arrivals(phase, expected, segments[i..]);
      var got := Got(phase, expected, s);
      if s.rst then all == taken
      else if phase == Reading && s.fin then all == taken + got
      else all == taken + got + Arrivals(PhaseAfter(phase, s), Expected(phase, expected, s), segments[i + 1..])
  {
    assert segments[i..][1..] == segments[i + 1..] && segments[i..][0] == segments[i];
  }

  lemma PageFits(readers: Readers, raw: seq<byte>, limit: nat, redirects: nat)
    ensures Answer(readers, raw, limit, redirects).Page? ==> |Answer(readers, raw, limit, redirects).body| <= limit
  {
    hide FindBlank, Framed;
  }

  lemma FollowFew(readers: Readers, raw: seq<byte>, limit: nat, redirects: nat)
    ensures Answer(readers, raw, limit, redirects).Follow? ==> redirects < MAX_REDIRECTS
  {
    hide FindBlank, Framed;
  }
}
