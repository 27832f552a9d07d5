/** How a conversation ends when nothing is lost: a page that came whole is shown,
    in the clear when the server's FIN comes, through TLS when it says that it has
    finished; and what was asked went out in order. */
module FetchEnds {
  import opened Base
  import opened Streams
  import opened Answers
  import opened TlsRecords
  import opened Tls
  import opened FetchSteps
  import opened FetchKept

  // ---- Segments that come in order --------------------------------------------------------------

  /** The pieces of the server's stream from byte `at` to its end, the last of them
      with a FIN if `fin` says so. */
  predicate Delivers(server: Server, at: nat, segments: seq<Segment>, fin: bool)
    decreases |segments|
  {
    segments != [] &&
    var s := segments[0];
    !s.rst && !s.syn && Piece(server, s, at) && (s.data != [] || s.fin)
    && if |segments| == 1 then s.fin == fin && at + |s.data| == |server.stream|
       else !s.fin && Delivers(server, at + |s.data|, segments[1..], fin)
  }

  /** The same over several turns of the main loop, each with a segment at least. */
  predicate Served(server: Server, at: nat, turns: seq<Turn>, fin: bool)
    decreases |turns|
  {
    turns != [] &&
    if |turns| == 1 then Delivers(server, at, turns[0].segments, fin)
    else
      && turns[0].segments != [] && Consecutive(server, at, turns[0].segments)
      && Served(server, at + Total(turns[0].segments), turns[1..], fin)
  }

  datatype Turn = Turn(segments: seq<Segment>, now: nat)

  function Talked(p: Plan, t: Talk, turns: seq<Turn>): Talk
    decreases |turns|
  {
    if turns == [] then t else Talked(p, Stepped(p, t, turns[0].segments, turns[0].now), turns[1..])
  }

  // ---- What is shown ----------------------------------------------------------------------------

  /** The conversation ended as an answer that reads `text` says. */
  predicate EndedAs(p: Plan, t: Talk, text: seq<byte>) {
    match Answer(p.readers, text, p.limit, p.redirects)
    case Page(page) => t.phase == Done && t.body == page && t.follow == None
    case Follow(next) => t.phase == Done && t.follow == Some(next)
    case GivenUp => t.phase == Failed
  }

  lemma ConcludedAs(p: Plan, t: Talk)
    ensures EndedAs(p, Concluded(p, t), t.Heard())
  {
    hide Answer, CodeOf;
  }

  /** Everything the server has to say. */
  ghost function TextOf(p: Plan, server: Server): seq<byte> {
    if p.config.None? then server.stream else HeardOf(p, server.stream).state.received
  }

  /** The stream is one that can be shown whole: it is not too large, and through TLS
      it ends with the server's word that it has finished. */
  ghost predicate Showable(p: Plan, server: Server) {
    && |server.stream| < SERIALS && |TextOf(p, server)| <= p.limit + HEAD_ROOM
    && (p.config.Some? ==> HeardOf(p, server.stream).outcome.Ended? && HeardOf(p, server.stream).state.inbox == [])
  }

  /** Reading, with the first `at` bytes of the stream taken in. */
  ghost predicate ReadTo(p: Plan, server: Server, t: Talk, at: nat) {
    && t.phase == Reading && at <= |server.stream| && t.acknowledged == (server.start + 1 + at) % SERIALS
    && t.tls.Some? == p.config.Some? && Taken(p, t, server.stream[..at])
  }

  // ---- One piece --------------------------------------------------------------------------------

  /** Before its end a stream through TLS is neither broken nor closed. */
  lemma StillRunning(p: Plan, server: Server, n: nat)
    requires p.config.Some? && Showable(p, server) && n <= |server.stream|
    ensures n < |server.stream| ==> HeardOf(p, server.stream[..n]).outcome.Running?
    ensures !HeardOf(p, server.stream[..n]).outcome.Broken?
    ensures |HeardOf(p, server.stream[..n]).state.received| <= p.limit + HEAD_ROOM
  {
    hide Feed;
    var rest := server.stream[n..];
    assert server.stream == server.stream[..n] + rest;
    Tls.Cut(p.config.value, Started(p.hello), server.stream[..n], rest);
    FeedReceives(p.config.value, Started(p.hello), server.stream[..n], rest);
    assert n == |server.stream| ==> server.stream[..n] == server.stream;
  }

  /** The next piece is taken in. */
  lemma PieceTaken(p: Plan, server: Server, t: Talk, at: nat, data: seq<byte>)
    requires ReadTo(p, server, t, at) && Showable(p, server) && data != [] && at + |data| <= |server.stream|
    requires data == server.stream[at..at + |data|]
    ensures TakenIn(p, t, data).1
  {
    hide Feed, Talk.Told, FetchSteps.Sealed, Following, Keys.After;
    assert server.stream[..at] + data == server.stream[..at + |data|];
    if p.config.Some? {
      var c, s := p.config.value, t.tls.value;
      StillRunning(p, server, at);
      StillRunning(p, server, at + |data|);
      FedAlong(c, p.hello, s, server.stream[..at], data, t.asked);
    } else {
      assert t.raw == server.stream[..at];
    }
  }

  /** A client that followed does with the next piece what one does that is fed all
      at once; and it has keys for writing once it is connected. */
  lemma FedAlong(c: Config, hello: seq<byte>, s: State, bytes: seq<byte>, data: seq<byte>, asked: bool)
    requires Following(c, hello, s, bytes, asked) && Feed(c, Started(hello), bytes).outcome.Running?
    requires !Feed(c, Started(hello), bytes + data).outcome.Broken?
    ensures var r, all := Feed(c, s, data), Feed(c, Started(hello), bytes + data);
            && r.outcome == all.outcome && r.state.received == all.state.received
            && (r.state.stage == Connected && !asked ==> r.state.write.Some?)
  {
    hide Feed;
    var heard := Feed(c, Started(hello), bytes);
    Tls.Cut(c, Started(hello), bytes, data);
    if asked {
      FeedAside(c, heard.state, data, s.write);
    } else {
      assert s == heard.state.(write := s.write) == heard.state;
      StartInv(c, hello);
      FeedKeeps(c, hello, Started(hello), bytes + data);
      if Feed(c, s, data).state.stage == Connected {
        ConnectedKeys(c, hello, Feed(c, s, data).state);
      }
    }
  }

  lemma ConnectedKeys(c: Config, hello: seq<byte>, s: State)
    requires Inv(c, hello, s) && s.stage == Connected
    ensures s.write.Some?
  {
    hide Keyed, Joined, FinishedData, Message, TrafficKeys, Derive;
  }

  lemma NextTaken(p: Plan, server: Server, t: Talk, at: nat, s: Segment, now: nat)
    requires ReadTo(p, server, t, at) && Showable(p, server) && Piece(server, s, at)
    ensures var (u, ok) := Nexted(p, t, s, now);
            ok && ReadTo(p, server, u, at + |s.data|) && (s.data != [] ==> u.since == now)
  {
    hide Feed, TakenIn, Following, Taken;
    if s.data == [] {
    } else {
      var u := t.(acknowledged := (t.acknowledged + |s.data|) % SERIALS, since := now).With(Ack);
      TakenAside(p, t, u, server.stream[..at]);
      assert (t.acknowledged + |s.data|) % SERIALS == (server.start + 1 + (at + |s.data|)) % SERIALS by {
        Moved(server.start + 1 + at, |s.data|);
      }
      AtMoved(p, server, t, at, s.data);
      TakenInKept(p, u, server.stream[..at], s.data);
      assert server.stream[..at] + s.data == server.stream[..at + |s.data|];
      SameTaking(p, t, u, s.data);
    }
  }

  lemma AtMoved(p: Plan, server: Server, t: Talk, at: nat, data: seq<byte>)
    requires ReadTo(p, server, t, at) && Showable(p, server) && data != [] && at + |data| <= |server.stream|
    requires data == server.stream[at..at + |data|]
    ensures TakenIn(p, t, data).1
  {
    PieceTaken(p, server, t, at, data);
  }

  /** Whether a piece is taken does not depend on what was sent. */
  lemma SameTaking(p: Plan, t: Talk, u: Talk, data: seq<byte>)
    requires u.tls == t.tls && u.raw == t.raw && u.asked == t.asked
    ensures TakenIn(p, t, data).1 == TakenIn(p, u, data).1
  {
    hide Feed, Talk.Told, FetchSteps.Sealed;
  }

  // ---- A turn -----------------------------------------------------------------------------------

  /** The last pieces: over at the FIN, or with all of the stream read. */
  lemma {:induction false} LastArrived(p: Plan, server: Server, t: Talk, at: nat, segments: seq<Segment>, now: nat,
      fin: bool)
    requires ReadTo(p, server, t, at) && Showable(p, server) && Delivers(server, at, segments, fin)
    ensures var (u, over) := AllArrived(p, t, segments, now);
            over == fin && if fin then EndedAs(p, u, TextOf(p, server)) else ReadTo(p, server, u, |server.stream|)
    decreases |segments|
  {
    hide Feed, Nexted, Concluded, ReadTo, Showable, Taken;
    var s := segments[0];
    NextTaken(p, server, t, at, s, now);
    assert t.phase == Reading by {
      Phases(p, server, t, at);
    }
    var (u, ok) := Nexted(p, t, s, now);
    if |segments| == 1 {
      assert segments[1..] == [];
      if fin {
        var w := u.(acknowledged := (u.acknowledged + 1) % SERIALS).With(AckFin);
        ConcludedAs(p, w);
        AllHeard(p, server, u);
      }
    } else {
      LastArrived(p, server, u, at + |s.data|, segments[1..], now, fin);
    }
  }

  lemma Phases(p: Plan, server: Server, t: Talk, at: nat)
    requires ReadTo(p, server, t, at)
    ensures t.phase == Reading && at <= |server.stream|
  {
    hide Taken;
  }

  lemma AllHeard(p: Plan, server: Server, t: Talk)
    requires ReadTo(p, server, t, |server.stream|)
    ensures t.Heard() == TextOf(p, server)
  {
    hide Feed;
    assert server.stream[..|server.stream|] == server.stream;
  }

  /** Pieces in the middle. */
  lemma {:induction false} SomeArrived(p: Plan, server: Server, t: Talk, at: nat, segments: seq<Segment>, now: nat)
    requires ReadTo(p, server, t, at) && Showable(p, server) && Consecutive(server, at, segments)
    requires segments == [] ==> t.since == now
    ensures var (u, over) := AllArrived(p, t, segments, now);
            !over && ReadTo(p, server, u, at + Total(segments)) && u.since == now
    decreases |segments|
  {
    hide Feed, Nexted, ReadTo, Showable, Taken;
    if segments != [] {
      var s := segments[0];
      NextTaken(p, server, t, at, s, now);
      Phases(p, server, t, at);
      SomeArrived(p, server, Nexted(p, t, s, now).0, at + |s.data|, segments[1..], now);
    }
  }

  /** A conversation that is not at the end of its stream goes on. */
  lemma NotClosed(p: Plan, server: Server, t: Talk, at: nat)
    requires ReadTo(p, server, t, at) && Showable(p, server) && (p.config.None? || at < |server.stream|)
    ensures t.tls.Some? ==> t.tls.value.stage != Closed
  {
    hide Feed;
    if t.tls.Some? {
      StillRunning(p, server, at);
      RunningOpen(p.config.value, p.hello, server.stream[..at]);
    }
  }

  /** A connection is closed only by its end. */
  lemma RunningOpen(c: Config, hello: seq<byte>, bytes: seq<byte>)
    requires Feed(c, Started(hello), bytes).outcome.Running?
    ensures Feed(c, Started(hello), bytes).state.stage != Closed
  {
    hide Records;
    OpenStays(c, Started(hello).(inbox := Started(hello).inbox + bytes), []);
  }

  lemma {:induction false} OpenStays(c: Config, s: State, out: seq<byte>)
    requires s.stage != Closed
    ensures Records(c, s, out).outcome.Running? ==> Records(c, s, out).state.stage != Closed
    decreases |s.inbox|
  {
    hide Process;
    if HasRecord(s.inbox) {
      var n := RecordSize(s.inbox);
      var t := s.(inbox := s.inbox[n..]);
      OpenProcess(c, t, s.inbox[..5], s.inbox[5..n]);
      var r := Process(c, t, s.inbox[..5], s.inbox[5..n]);
      if r.outcome.Running? {
        OpenStays(c, r.state, out + r.out);
      }
    }
  }

  lemma OpenProcess(c: Config, s: State, header: seq<byte>, body: seq<byte>)
    requires s.stage != Closed && |header| == 5
    ensures Process(c, s, header, body).outcome.Running? ==> Process(c, s, header, body).state.stage != Closed
  {
    hide TlsRecords.Open, Messages;
    MessagesOpen(c, s.(pending := s.pending + body, heard := s.heard + body), []);
    if s.read.Some? {
      match TlsRecords.Open(c.cipher, s.read.value, header, body)
      case None =>
      case Some(item) =>
        var next := s.(read := Some(s.read.value.Next()));
        MessagesOpen(c, next.(pending := next.pending + item.1, heard := next.heard + item.1), []);
    }
  }

  lemma {:induction false} MessagesOpen(c: Config, s: State, out: seq<byte>)
    requires s.stage != Closed
    ensures Messages(c, s, out).state.stage != Closed
    decreases |s.pending|
  {
    hide Greeted, Switched, FinishedData, ReadHello;
    if HasMessage(s.pending) {
      var r := Handle(c, Take(s), s.pending[..MessageSize(s.pending)]);
      assert r.state.stage != Closed by {
        HandleOpen(c, Take(s), s.pending[..MessageSize(s.pending)]);
      }
      if !r.outcome.Broken? {
        MessagesOpen(c, r.state, out + r.out);
      }
    }
  }

  lemma HandleOpen(c: Config, s: State, whole: seq<byte>)
    requires s.stage != Closed && WholeMessage(whole)
    ensures Handle(c, s, whole).state.stage != Closed
  {
    hide FinishedData, ReadHello, HandshakeSecret, MasterSecret, Derive, TrafficKeys, Joined, Message, Record;
  }

  /** A turn in the middle. */
  lemma MiddleTurn(p: Plan, server: Server, t: Talk, at: nat, turn: Turn)
    requires ReadTo(p, server, t, at) && Showable(p, server) && turn.segments != []
    requires Consecutive(server, at, turn.segments)
    ensures var u, next := Stepped(p, t, turn.segments, turn.now), at + Total(turn.segments);
            if p.config.Some? && next == |server.stream| then EndedAs(p, u, TextOf(p, server))
            else ReadTo(p, server, u, next)
  {
    hide Feed, AllArrived, ReadTo, Showable, Concluded, Consecutive, EndedAs;
    var next := at + Total(turn.segments);
    Phases(p, server, t, at);
    SomeArrived(p, server, t, at, turn.segments, turn.now);
    var u := AllArrived(p, t, turn.segments, turn.now).0;
    Phases(p, server, u, next);
    if p.config.Some? && next == |server.stream| {
      ClosedAtEnd(p, server, u);
      AllHeard(p, server, u);
      ConcludedAs(p, u);
    } else {
      NotClosed(p, server, u, next);
    }
  }

  /** What is over stays so. */
  lemma {:induction false} OverStays(p: Plan, t: Talk, turns: seq<Turn>)
    requires t.Over()
    ensures Talked(p, t, turns) == t
    decreases |turns|
  {
    hide AllArrived, Settled;
    if turns != [] {
      OverStays(p, t, turns[1..]);
    }
  }

  lemma EndedOver(p: Plan, t: Talk, text: seq<byte>)
    requires EndedAs(p, t, text)
    ensures t.Over()
  {
    hide Answer;
  }

  /** The last turn: the answer is turned into what is shown. */
  lemma LastTurn(p: Plan, server: Server, t: Talk, at: nat, turn: Turn, fin: bool)
    requires ReadTo(p, server, t, at) && Showable(p, server) && Delivers(server, at, turn.segments, fin)
    requires fin || p.config.Some?
    ensures EndedAs(p, Stepped(p, t, turn.segments, turn.now), TextOf(p, server))
  {
    hide Feed, AllArrived, ReadTo, Showable, Concluded, Delivers, EndedAs;
    Phases(p, server, t, at);
    LastArrived(p, server, t, at, turn.segments, turn.now, fin);
    if !fin {
      var u := AllArrived(p, t, turn.segments, turn.now).0;
      ClosedAtEnd(p, server, u);
      AllHeard(p, server, u);
      ConcludedAs(p, u);
    }
  }

  lemma ClosedAtEnd(p: Plan, server: Server, t: Talk)
    requires ReadTo(p, server, t, |server.stream|) && Showable(p, server) && p.config.Some?
    ensures t.tls.Some? && t.tls.value.stage == Closed
  {
    hide Feed;
    assert server.stream[..|server.stream|] == server.stream;
  }

  // ---- All of it --------------------------------------------------------------------------------

  lemma {:induction false} ServedWhole(p: Plan, server: Server, t: Talk, at: nat, turns: seq<Turn>, fin: bool)
    requires ReadTo(p, server, t, at) && Showable(p, server) && Served(server, at, turns, fin)
    requires fin || p.config.Some?
    ensures EndedAs(p, Talked(p, t, turns), TextOf(p, server))
    decreases |turns|
  {
    hide Stepped, ReadTo, Showable, EndedAs, Delivers, Consecutive;
    if |turns| == 1 {
      LastTurn(p, server, t, at, turns[0], fin);
      assert turns[1..] == [];
      assert Talked(p, Stepped(p, t, turns[0].segments, turns[0].now), [])
          == Stepped(p, t, turns[0].segments, turns[0].now);
    } else {
      MiddleTurn(p, server, t, at, turns[0]);
      var u, next := Stepped(p, t, turns[0].segments, turns[0].now), at + Total(turns[0].segments);
      if p.config.Some? && next == |server.stream| {
        EndedOver(p, u, TextOf(p, server));
        OverStays(p, u, turns[1..]);
      } else {
        ServedWhole(p, server, u, next, turns[1..], fin);
      }
    }
  }

  /** A conversation that waits for the server's SYN. */
  ghost predicate Waiting(p: Plan, t: Talk) {
    && t.phase == Connecting && t.raw == [] && !t.asked && t.follow == None && t.tls.Some? == p.config.Some?
    && (t.tls.Some? ==> t.tls.value == Started([]).(said := []))
  }

  lemma SynArrived(p: Plan, server: Server, t: Talk, syn: Segment, now: nat)
    requires Waiting(p, t) && syn.syn && syn.ack && !syn.rst && syn.sequence == server.start % SERIALS
    ensures var (u, over) := Arrived(p, t, syn, now);
            !over && ReadTo(p, server, u, 0)
  {
    hide Feed, Talk.Told, PlainRecord, Following;
    BegunNumber(p, t, syn, now);
    Moved(server.start, 1);
    var u := t.(sequence := syn.acknowledged, acknowledged := (syn.sequence + 1) % SERIALS, phase := Reading,
                since := now).With(Ack);
    assert server.stream[..0] == [];
    if t.tls.Some? {
      var w := u.(tls := Some(u.tls.value.(said := u.tls.value.said + [p.hello])));
      assert [] + [p.hello] == [p.hello];
      FollowingStart(p.config.value, p.hello);
      ToldKeeps(w, PlainRecord(HANDSHAKE, p.hello));
    } else {
      ToldKeeps(u, p.request);
    }
  }

  /** From the SYN on: the server's SYN, then its stream in order and whole, over as
      many turns as it takes, the last segment with a FIN, or through TLS with its
      word that it has finished. The conversation ends as the whole of what the
      server had to say says. */
  lemma FetchedWhole(p: Plan, server: Server, t: Talk, syn: Segment, turns: seq<Turn>, fin: bool)
    requires Waiting(p, t) && syn.syn && syn.ack && !syn.rst && syn.sequence == server.start % SERIALS
    requires Showable(p, server) && Served(server, 0, turns, fin) && (fin || p.config.Some?)
    ensures var first := Turn([syn] + turns[0].segments, turns[0].now);
            EndedAs(p, Talked(p, t, [first] + turns[1..]), TextOf(p, server))
  {
    hide Feed, Arrived, ReadTo, Showable, Delivers, Consecutive, EndedAs, Settled, Waiting;
    var first := Turn([syn] + turns[0].segments, turns[0].now);
    var w := Woken(t, first.now);
    WokenWaits(p, t, first.now);
    assert t.phase == Connecting by {
      WaitingPhase(p, t);
    }
    SynArrived(p, server, w, syn, first.now);
    var u := Arrived(p, w, syn, first.now).0;
    Phases(p, server, u, 0);
    assert first.segments[0] == syn && first.segments[1..] == turns[0].segments;
    assert Stepped(p, t, first.segments, first.now) == Stepped(p, u, turns[0].segments, turns[0].now);
    assert ([first] + turns[1..])[1..] == turns[1..];
    assert Talked(p, t, [first] + turns[1..]) == Talked(p, u, turns);
    ServedWhole(p, server, u, 0, turns, fin);
  }

  lemma WaitingPhase(p: Plan, t: Talk)
    requires Waiting(p, t)
    ensures t.phase == Connecting
  {
  }

  lemma WokenWaits(p: Plan, t: Talk, now: nat)
    requires Waiting(p, t)
    ensures Waiting(p, Woken(t, now))
  {
  }

  /** So a page sent in chunks that fits is shown. */
  lemma ChunkedFetched(p: Plan, server: Server, t: Talk, syn: Segment, turns: seq<Turn>, fin: bool, head: seq<byte>,
      sent: Chunked.Sent)
    requires Waiting(p, t) && syn.syn && syn.ack && !syn.rst && syn.sequence == server.start % SERIALS
    requires Showable(p, server) && Served(server, 0, turns, fin) && (fin || p.config.Some?)
    requires Sends(TextOf(p, server), head, Chunked.Bytes(sent)) && |TextOf(p, server)| <= Chunked.LONGEST
    requires Chunked.Valid(sent) && Chunked.AllTight(sent) && p.readers.head(head).chunked
    requires |Chunked.Data(sent.chunks)| <= p.limit && !Redirected(p.readers, p.readers.head(head), p.redirects)
    ensures var u := Talked(p, t, [Turn([syn] + turns[0].segments, turns[0].now)] + turns[1..]);
            u.phase == Done && u.body == Chunked.Data(sent.chunks) && u.follow == None
  {
    hide Feed, Talked, Showable, Served, Waiting, Sends, Chunked.Valid, Chunked.AllTight, Chunked.Bytes, Chunked.Data,
      Answer;
    FetchedWhole(p, server, t, syn, turns, fin);
    var text := TextOf(p, server);
    assert text[..|text|] == text;
    ChunkedWhole(p.readers, text, head, sent, |text|, p.limit, p.redirects);
  }

  /** And so is one with a length. */
  lemma LengthFetched(p: Plan, server: Server, t: Talk, syn: Segment, turns: seq<Turn>, fin: bool, head: seq<byte>,
      body: seq<byte>)
    requires Waiting(p, t) && syn.syn && syn.ack && !syn.rst && syn.sequence == server.start % SERIALS
    requires Showable(p, server) && Served(server, 0, turns, fin) && (fin || p.config.Some?)
    requires Sends(TextOf(p, server), head, body) && !p.readers.head(head).chunked
    requires p.readers.head(head).length.Some? && p.readers.head(head).length.value <= |body|
    requires p.readers.head(head).length.value <= p.limit && !Redirected(p.readers, p.readers.head(head), p.redirects)
    ensures var u := Talked(p, t, [Turn([syn] + turns[0].segments, turns[0].now)] + turns[1..]);
            u.phase == Done && u.body == body[..p.readers.head(head).length.value] && u.follow == None
  {
    hide Feed, Talked, Showable, Served, Waiting, Answer, FindBlank;
    FetchedWhole(p, server, t, syn, turns, fin);
    var text := TextOf(p, server);
    assert text[..|text|] == text;
    LengthWhole(p.readers, text, head, body, |text|, p.limit, p.redirects);
  }

  // ---- When it does not come --------------------------------------------------------------------

  predicate NoAnswer(segments: seq<Segment>) {
    forall s | s in segments :: !(s.syn && s.ack)
  }

  predicate HasReset(segments: seq<Segment>) {
    exists s :: s in segments && s.rst
  }

  /** While the server's SYN does not come, nothing but a reset ends the conversation,
      however long that takes: each SYN sent again starts the patience anew. */
  lemma {:induction false} NeverGivesUp(p: Plan, t: Talk, turns: seq<Turn>)
    requires Waiting(p, t) && forall turn: Turn | turn in turns :: NoAnswer(turn.segments)
    ensures Talked(p, t, turns).phase
            == if exists turn: Turn :: turn in turns && HasReset(turn.segments) then Failed else Connecting
    decreases |turns|
  {
    hide Feed, Waiting, NoAnswer, HasReset, Stepped;
    WaitingPhase(p, t);
    if turns != [] {
      var u := Stepped(p, t, turns[0].segments, turns[0].now);
      StillWaits(p, t, turns[0]);
      assert forall turn | turn in turns :: turn == turns[0] || turn in turns[1..];
      if HasReset(turns[0].segments) {
        OverStays(p, u, turns[1..]);
      } else {
        NeverGivesUp(p, u, turns[1..]);
      }
    }
  }

  lemma StillWaits(p: Plan, t: Talk, turn: Turn)
    requires Waiting(p, t) && NoAnswer(turn.segments)
    ensures var u := Stepped(p, t, turn.segments, turn.now);
            if HasReset(turn.segments) then u.phase == Failed else Waiting(p, u)
  {
    hide Feed, HasReset, NoAnswer;
    Ignored(p, Woken(t, turn.now), turn.segments, turn.now);
  }

  lemma {:induction false} Ignored(p: Plan, t: Talk, segments: seq<Segment>, now: nat)
    requires t.phase == Connecting && NoAnswer(segments)
    ensures AllArrived(p, t, segments, now)
            == if HasReset(segments) then (t.(phase := Failed), true) else (t, false)
    decreases |segments|
  {
    hide Feed, Nexted, Begun;
    if segments != [] {
      assert forall s | s in segments :: s == segments[0] || s in segments[1..];
      assert !(segments[0].syn && segments[0].ack);
      if !segments[0].rst {
        Ignored(p, t, segments[1..], now);
      }
    }
  }

  /** Once it has, a silence past PATIENCE ends it: with what came, if anything did. */
  lemma SilenceEnds(p: Plan, t: Talk, now: nat)
    requires t.phase == Reading && now > t.since + PATIENCE && (t.tls.Some? ==> t.tls.value.stage != Closed)
    ensures var u := Stepped(p, t, [], now);
            if t.Heard() == [] then u.phase == Failed else EndedAs(p, u, t.Heard())
  {
    hide Answer, CodeOf;
  }

  /** A reset ends it, whatever came before. */
  lemma ResetFails(p: Plan, t: Talk, s: Segment, rest: seq<Segment>, now: nat)
    requires !t.Over() && s.rst
    ensures Stepped(p, t, [s] + rest, now).phase == Failed
  {
    hide Nexted, Begun;
    assert ([s] + rest)[0] == s;
  }

  // ---- What goes out ----------------------------------------------------------------------------

  /** Segments of ours that carry `data`, the first with number `sequence`. */
  predicate Carries(outs: seq<Out>, data: seq<byte>, sequence: nat, acknowledged: nat)
    decreases |outs|
  {
    if outs == [] then data == []
    else
      var o := outs[0];
      && o.flags == AckPush && o.sequence == sequence && o.acknowledged == acknowledged
      && 0 < |o.data| <= SEGMENT && o.data <= data
      && Carries(outs[1..], data[|o.data|..], (sequence + |o.data|) % SERIALS, acknowledged)
  }

  /** What is told goes out in order, in segments of its own, one number behind the
      other. */
  lemma {:induction false} ToldCarries(t: Talk, data: seq<byte>) returns (outs: seq<Out>)
    requires t.sequence < SERIALS
    ensures t.Told(data).sent == t.sent + outs && Carries(outs, data, t.sequence, t.acknowledged)
    ensures t.Told(data).sequence == (t.sequence + |data|) % SERIALS
    decreases |data|
  {
    hide Carries;
    if data == [] {
      outs := [];
      assert t.sent + [] == t.sent;
      CarriesNone(t.sequence, t.acknowledged);
    } else {
      var piece := data[..Lower(SEGMENT, |data|)];
      var o := Out(AckPush, t.sequence, t.acknowledged, piece);
      var u := t.(sent := t.sent + [o], sequence := (t.sequence + |piece|) % SERIALS);
      var rest := ToldCarries(u, data[|piece|..]);
      outs := [o] + rest;
      assert t.sent + [o] + rest == t.sent + outs;
      CarriesMore(o, rest, data);
      Moved(t.sequence + |piece|, |data| - |piece|);
    }
  }

  lemma CarriesNone(sequence: nat, acknowledged: nat)
    ensures Carries([], [], sequence, acknowledged)
  {
  }

  lemma CarriesMore(o: Out, rest: seq<Out>, data: seq<byte>)
    requires o.flags == AckPush && 0 < |o.data| <= SEGMENT && o.data <= data
    requires Carries(rest, data[|o.data|..], (o.sequence + |o.data|) % SERIALS, o.acknowledged)
    ensures Carries([o] + rest, data, o.sequence, o.acknowledged)
  {
    assert ([o] + rest)[1..] == rest;
  }

  /** In the clear, the server's SYN is acknowledged and the whole request follows,
      from the number the server expects. */
  lemma RequestSent(p: Plan, t: Talk, syn: Segment, now: nat) returns (outs: seq<Out>)
    requires t.tls == None && syn.acknowledged < SERIALS
    ensures var n := (syn.sequence + 1) % SERIALS;
            && Begun(p, t, syn, now).sent == t.sent + [Out(Ack, syn.acknowledged, n, [])] + outs
            && Carries(outs, p.request, syn.acknowledged, n)
  {
    hide Talk.Told;
    var u := t.(sequence := syn.acknowledged, acknowledged := (syn.sequence + 1) % SERIALS, phase := Reading,
                since := now).With(Ack);
    outs := ToldCarries(u, p.request);
  }
}
