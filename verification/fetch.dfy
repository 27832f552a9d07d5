/** The small TCP client as the object it is: its methods do to its fields what the
    functions of `FetchSteps` say, and it keeps what `FetchKept` says. */
module Fetching {
  import opened Base
  import opened Streams
  import opened Answers
  import opened TlsRecords
  import opened Tls
  import opened TlsClients
  import opened FetchSteps
  import opened FetchKept

  class Fetch {
    ghost const server: Server
    const readers: Readers
    const limit: nat
    /** What the ClientHello is made of, and the request. */
    const host: seq<byte>
    const random: Secret
    const session: Secret
    const public: Secret
    const request: seq<byte>
    /** The conversation inside the connection, for https. */
    const tls: Client?
    const redirects: nat
    var phase: Phase
    var sequence: nat
    var acknowledged: nat
    var raw: seq<byte>
    var asked: bool
    var follow: Option<string>
    var body: seq<byte>
    var code: nat
    var since: nat
    /** What was put on the wire. */
    var sent: seq<Out>
    /** Everything taken in. */
    ghost var accepted: seq<byte>

    function Greeting(): seq<byte> {
      ClientHello(host, random, session, public)
    }

    ghost function Aim(): Plan {
      Plan(readers, limit, redirects, request, if tls == null then None else Some(tls.config), Greeting())
    }

    ghost function Now(): Talk
      reads this, if tls == null then {} else {tls}
    {
      Talk(phase, sequence, acknowledged, raw, if tls == null then None else Some(tls.Now()), asked, follow, body, code,
           since, sent)
    }

    /** The objects of the conversation. */
    ghost function Parts(): set<object>
      reads if tls == null then {} else {tls, tls.transcript}
    {
      if tls == null then {}
      else
        var client: Client := tls;
        {client, client.transcript, client.transcript.buffer}
    }

    ghost predicate Sane()
      reads if tls == null then {} else {tls, tls.transcript, tls.transcript.buffer}
    {
      tls != null ==> tls.Valid()
    }

    /** What is taken in is a prefix of the server's stream; what is shown is what
        that prefix says. */
    ghost predicate Valid()
      reads this, if tls == null then {} else {tls, tls.transcript, tls.transcript.buffer}
    {
      Sane() && Kept(Aim(), server, Now(), accepted)
    }

    constructor (ghost server: Server, readers: Readers, limit: nat, host: seq<byte>, random: Secret, session: Secret,
        public: Secret, request: seq<byte>, client: Client?, redirects: nat, sequence: nat, now: nat)
      requires redirects <= MAX_REDIRECTS
      requires client != null ==> client.Valid() && client.Now() == Started([]).(said := [])
      ensures Valid() && tls == client && this.server == server && accepted == []
      ensures Aim() == Plan(readers, limit, redirects, request, if client == null then None else Some(client.config),
                            ClientHello(host, random, session, public))
      ensures Now() == Talk(Connecting, sequence, 0, [], if client == null then None else Some(client.Now()),
                            false, None, [], 0, now, [Out(Syn, sequence, 0, [])])
    {
      this.server, this.readers, this.limit := server, readers, limit;
      this.host, this.random, this.session, this.public, this.request := host, random, session, public, request;
      tls, this.redirects, since := client, redirects, now;
      phase, acknowledged, raw, asked := Connecting, 0, [], false;
      this.sequence, sent := sequence, [Out(Syn, sequence, 0, [])];
      follow, body, code, accepted := None, [], 0, [];
    }

    /** A segment without data. */
    method Wire(flags: Flags)
      modifies this`sent
      ensures Now() == old(Now()).With(flags)
    {
      sent := sent + [Out(flags, sequence, acknowledged, [])];
    }

    /** Data, in segments. */
    method Tell(data: seq<byte>)
      modifies this`sent, this`sequence
      ensures Now() == old(Now()).Told(data)
    {
      var at := 0;
      assert data[0..] == data;
      while at < |data|
        invariant at <= |data| && Now().Told(data[at..]) == old(Now()).Told(data)
        invariant Now() == old(Now()).(sent := sent, sequence := sequence)
      {
        var end := Lower(at + SEGMENT, |data|);
        assert data[at..][..Lower(SEGMENT, |data[at..]|)] == data[at..end]
            && data[at..][|data[at..end]|..] == data[end..];
        sent := sent + [Out(AckPush, sequence, acknowledged, data[at..end])];
        sequence := (sequence + (end - at)) % SERIALS;
        at := end;
      }
      assert data[at..] == [];
    }

    /** One more piece taken in; false when the answer is too large, or TLS fails. */
    method TakeIn(data: seq<byte>) returns (ok: bool)
      requires Sane()
      modifies this`raw, this`asked, this`accepted, this`sent, this`sequence, Parts()
      ensures Sane() && Parts() == old(Parts()) && accepted == old(accepted) + data
      ensures (Now(), ok) == TakenIn(Aim(), old(Now()), data)
    {
      hide Client.Valid, Client.Now, Feed, Talk.Told, Keys.After, ClientHello, FetchSteps.Sealed;
      accepted := accepted + data;
      if tls == null {
        if |raw| + |data| > limit + HEAD_ROOM {
          return false;
        }
        raw := raw + data;
        return true;
      }
      ghost var before := Now();
      var out, problem := tls.TakeIn(data);
      NowParts();
      ghost var r := Feed(tls.config, before.tls.value, data);
      assert tls.Now() == r.state && out == r.out && problem == ProblemOf(r.outcome);
      if |tls.received| > limit + HEAD_ROOM {
        return false;
      }
      if tls.stage == Connected && !asked {
        ok := Ask(out, problem);
      } else {
        ok := problem == None;
        if ok {
          Tell(out);
        }
      }
    }

    /** The request, once the handshake is done: behind what the handshake sends. */
    method Ask(out: seq<byte>, problem: Option<Problem>) returns (ok: bool)
      requires tls != null && Sane() && tls.stage == Connected
      modifies this`asked, this`sent, this`sequence, tls`write
      ensures Sane() && Parts() == old(Parts())
      ensures ok <==> old(tls.write).Some? && problem == None
      ensures old(tls.write).None? ==> Now() == old(Now())
      ensures old(tls.write).Some? ==>
                var keys, t := old(tls.write).value, old(Now());
                var u := t.(tls := Some(t.tls.value.(write := Some(keys.After(|Chunks(request)|)))));
                var asking := FetchSteps.Sealed(Aim(), keys, tls.config.cipher);
                Now() == if ok then u.Told(out).Told(asking).(asked := true) else u
    {
      hide Client.Valid, Talk.Told, Keys.After, ClientHello, Joined, SealAll, Items, Chunks;
      var sealed, trouble := tls.Seal(request);
      if problem != None || trouble != None {
        return false;
      }
      Tell(out);
      Tell(sealed);
      asked := true;
      ok := true;
    }

    lemma NowParts()
      requires tls != null
      ensures tls.Now().received == tls.received && tls.Now().stage == tls.stage && tls.Now().write == tls.write
      ensures tls.Now().said == tls.said
    {
    }

    /** Turns what came into what is shown. */
    method Conclude()
      requires Sane()
      modifies this`phase, this`follow, this`body, this`code
      ensures Now() == Concluded(Aim(), old(Now()))
    {
      hide Answer, Client.Valid, CodeOf, ClientHello;
      var answer := if tls == null then raw else tls.received;
      var outcome;
      outcome, code := Finish(readers, answer, limit, redirects);
      match outcome {
        case GivenUp => phase := Failed;
        case Follow(next) => follow, phase := Some(next), Done;
        case Page(page) => body, follow, phase := page, None, Done;
      }
    }

    /** The server's SYN: the conversation starts. */
    method Begin(s: Segment, now: nat)
      requires Sane()
      modifies this`sequence, this`acknowledged, this`phase, this`since, this`asked, this`sent, Parts()
      ensures Sane() && Parts() == old(Parts()) && accepted == old(accepted)
      ensures Now() == Begun(Aim(), old(Now()), s, now)
    {
      hide Client.Valid, Client.Now, ClientHello, Talk.Told, PlainRecord;
      Accept(s, now);
      if tls != null {
        Greet();
      } else {
        Tell(request);
        asked := true;
      }
    }

    method Accept(s: Segment, now: nat)
      modifies this`sequence, this`acknowledged, this`phase, this`since, this`sent
      ensures Now() == old(Now()).(sequence := s.acknowledged, acknowledged := (s.sequence + 1) % SERIALS,
                                   phase := Reading, since := now).With(Ack)
    {
      sequence, acknowledged := s.acknowledged, (s.sequence + 1) % SERIALS;
      phase, since := Reading, now;
      Wire(Ack);
    }

    /** The first flight of TLS. */
    method Greet()
      requires tls != null && Sane()
      modifies this`sequence, this`sent, Parts()
      ensures Sane() && Parts() == old(Parts())
      ensures var t := old(Now());
              t.tls.Some? && Now() == t.(tls := Some(t.tls.value.(said := t.tls.value.said + [Greeting()])))
                                       .Told(PlainRecord(HANDSHAKE, Greeting()))
    {
      hide Client.Valid, Client.Now, ClientHello, Talk.Told, PlainRecord;
      NowParts();
      var hello := tls.Greet(host, random, session, public);
      Tell(hello);
    }

    /** The next piece of the stream, if this is it. */
    method Next(s: Segment, now: nat) returns (ok: bool)
      requires Sane()
      modifies this`acknowledged, this`since, this`raw, this`asked, this`accepted, this`phase, this`sent, this`sequence,
        Parts()
      ensures Sane() && Parts() == old(Parts())
      ensures (Now(), ok) == Nexted(Aim(), old(Now()), s, now)
      ensures accepted == old(accepted) + if s.data != [] && s.sequence == old(acknowledged) then s.data else []
    {
      hide Client.Valid, Client.Now, ClientHello, TakenIn;
      if s.data == [] || s.sequence != acknowledged {
        return true;
      }
      acknowledged := (acknowledged + |s.data|) % SERIALS;
      since := now;
      Wire(Ack);
      ok := TakeIn(s.data);
      if !ok {
        phase := Failed;
      }
    }

    /** One segment of the server's; `over` when the conversation is. A FIN ends it
        wherever it comes. */
    method Arrive(s: Segment, now: nat) returns (over: bool)
      requires Sane()
      modifies this, Parts()
      ensures Sane() && Parts() == old(Parts())
      ensures (Now(), over) == Arrived(Aim(), old(Now()), s, now)
      ensures accepted == old(accepted) + Got(old(phase), old(acknowledged), s)
    {
      hide Client.Valid, Client.Now, ClientHello, Nexted, Begun, Concluded;
      over := false;
      if s.rst {
        phase := Failed;
        return true;
      }
      if phase == Connecting && s.syn && s.ack {
        Begin(s, now);
        return false;
      }
      if phase != Reading {
        return false;
      }
      var ok := Next(s, now);
      if !ok {
        return true;
      }
      if s.fin {
        acknowledged := (acknowledged + 1) % SERIALS;
        Wire(AckFin);
        Conclude();
        over := true;
      }
    }

    /** A turn of the main loop, with the segments that came for this
        conversation. */
    method Step(segments: seq<Segment>, now: nat)
      requires Valid() && forall s | s in segments :: Genuine(server, s)
      modifies this, Parts()
      ensures Valid() && Parts() == old(Parts())
      ensures Now() == Stepped(Aim(), old(Now()), segments, now)
      ensures old(accepted) <= accepted && (phase != Failed ==> Bounded(Aim(), Now()))
      ensures old(phase) in {Connecting, Reading} && phase != Failed ==>
                accepted == old(accepted) + Arrivals(old(phase), old(acknowledged), segments)
      ensures old(phase) in {Done, Failed} ==> Now() == old(Now()) && accepted == old(accepted)
    {
      hide Client.Valid, Arrived, Settled, Kept, Genuine, Arrivals, AllArrived, GotOf, Got;
      ghost var t, was := Now(), accepted;
      SteppedKept(Aim(), server, t, was, segments, now);
      assert was + [] == was;
      if phase == Done || phase == Failed {
        IsBounded();
        return;
      }
      if phase == Connecting && now > since + SYN_PATIENCE {
        since := now;
        sent := sent + [Out(Syn, sequence, 0, [])];
      }
      ghost var w := Woken(t, now);
      assert Now() == w;
      var over := ArriveAll(segments, now);
      if !over {
        Settle(now);
      }
      IsBounded();
    }

    /** The segments of a turn, up to one that ends the conversation. */
    method ArriveAll(segments: seq<Segment>, now: nat) returns (over: bool)
      requires Sane()
      modifies this, Parts()
      ensures Sane() && Parts() == old(Parts())
      ensures (Now(), over) == AllArrived(Aim(), old(Now()), segments, now)
      ensures accepted == old(accepted) + GotOf(Aim(), old(Now()), segments, now)
    {
      hide Client.Valid, Arrived, Got;
      ghost var p, t, was := Aim(), Now(), accepted;
      assert segments[0..] == segments;
      for i := 0 to |segments|
        invariant Sane() && Parts() == old(Parts())
        invariant AllArrived(p, Now(), segments[i..], now) == AllArrived(p, t, segments, now)
        invariant accepted + GotOf(p, Now(), segments[i..], now) == was + GotOf(p, t, segments, now)
      {
        assert segments[i..][0] == segments[i] && segments[i..][1..] == segments[i + 1..];
        ghost var before, some := Now(), accepted;
        over := Arrive(segments[i], now);
        ghost var got := Got(before.phase, before.acknowledged, segments[i]);
        if over {
          assert some + (got + []) == some + got;
          return;
        }
        assert some + (got + GotOf(p, Now(), segments[i + 1..], now))
            == some + got + GotOf(p, Now(), segments[i + 1..], now);
      }
      assert segments[|segments|..] == [] && accepted + [] == accepted;
      over := false;
    }

    lemma IsBounded()
      requires Valid()
      ensures phase != Failed ==> Bounded(Aim(), Now())
    {
      hide Taken, Shown;
    }

    /** After the segments: a conversation the server has closed, or that has been
        silent too long, is over. */
    method Settle(now: nat)
      requires Sane()
      modifies this`phase, this`follow, this`body, this`code
      ensures Now() == Settled(Aim(), old(Now()), now)
    {
      hide Client.Valid, Concluded;
      if tls != null && tls.stage == Closed {
        Conclude();
        return;
      }
      if now > since + PATIENCE {
        if phase == Reading && (if tls == null then raw else tls.received) != [] {
          Conclude();
        } else {
          phase := Failed;
        }
      }
    }
  }

  /** Everything the server has to say: its stream, or what a TLS client receives
      of it. */
  ghost function Text(f: Fetch): seq<byte> {
    if f.tls == null then f.server.stream else HeardOf(f.Aim(), f.server.stream).state.received
  }

  /** What has come is the start of it. */
  lemma ReachedStart(f: Fetch)
    requires f.Valid()
    ensures Reached(f.Aim(), f.accepted) <= Text(f)
  {
    hide Answer, Feed, Client.Valid, ClientHello, Following;
    if f.tls != null {
      var rest := f.server.stream[|f.accepted|..];
      assert f.server.stream == f.accepted + rest;
      FeedReceives(f.tls.config, Started(f.Greeting()), f.accepted, rest);
    }
  }

  /** What is shown of a chunked answer, in the clear or through TLS, is the
      concatenated chunks of the whole of it: every byte came, whatever the
      network did. */
  lemma DoneChunked(f: Fetch, head: seq<byte>, sent: Chunked.Sent)
    requires f.Valid() && f.phase == Done && f.follow == None
    requires Sends(Text(f), head, Chunked.Bytes(sent)) && |Text(f)| <= Chunked.LONGEST
    requires Chunked.Valid(sent) && Chunked.AllTight(sent) && f.readers.head(head).chunked
    ensures Reached(f.Aim(), f.accepted) == Text(f) && f.body == Chunked.Data(sent.chunks)
    ensures f.tls == null ==> f.accepted == f.server.stream
  {
    hide Answer, Chunked.Valid, Chunked.AllTight, Chunked.Bytes, Chunked.Data, Sends, Feed, Client.Valid, ClientHello,
      Following;
    ReachedStart(f);
    var n := |Reached(f.Aim(), f.accepted)|;
    assert Reached(f.Aim(), f.accepted) == Text(f)[..n];
    ChunkedWhole(f.readers, Text(f), head, sent, n, f.limit, f.redirects);
    assert Text(f)[..|Text(f)|] == Text(f);
  }

  /** And of one with a length, that many bytes of the body. */
  lemma DoneLength(f: Fetch, head: seq<byte>, body: seq<byte>)
    requires f.Valid() && f.phase == Done && f.follow == None && Sends(Text(f), head, body)
    requires !f.readers.head(head).chunked && f.readers.head(head).length.Some?
    ensures var length := f.readers.head(head).length.value; length <= |body| && f.body == body[..length]
  {
    hide Answer, Sends, Feed, Client.Valid, ClientHello, Following;
    ReachedStart(f);
    var n := |Reached(f.Aim(), f.accepted)|;
    assert Reached(f.Aim(), f.accepted) == Text(f)[..n];
    LengthWhole(f.readers, Text(f), head, body, n, f.limit, f.redirects);
    StreamLength(Text(f), head, body);
  }

  lemma StreamLength(stream: seq<byte>, head: seq<byte>, body: seq<byte>)
    requires Sends(stream, head, body)
    ensures |stream| == |head| + 4 + |body|
  {
  }
}
