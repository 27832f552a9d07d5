/** A server that keeps to RFC 8446 is understood: however its handshake messages
    are cut into records, the client ends up connected, with the keys of the
    schedule, and its Finished is on the wire. */
module TlsHandshake {
  import opened Base
  import opened Streams
  import opened ChaCha
  import opened TlsRecords
  import opened Tls
  import opened TlsSchedule
  import TlsHellos

  /** A message of the server's between its ServerHello and its Finished. */
  predicate Between(m: seq<byte>) {
    WholeMessage(m) && Kind(m) in {8, 11, 15}
  }

  /** Handshake bytes, in records. */
  function HandshakeItems(chunks: seq<seq<byte>>): (r: seq<Item>)
    ensures |r| == |chunks| && forall i | 0 <= i < |r| :: r[i] == (HANDSHAKE, chunks[i])
  {
    seq(|chunks|, i requires 0 <= i < |chunks| => (HANDSHAKE, chunks[i]))
  }

  // ---- Messages ---------------------------------------------------------------------------------

  /** The start of a message is not a whole one. */
  lemma NotWhole(m: seq<byte>, rest: seq<byte>, p: seq<byte>)
    requires WholeMessage(m) && |p| < |m| && p == (m + rest)[..|p|]
    ensures !HasMessage(p)
  {
    if |p| >= 4 {
      assert p[1] == m[1] && p[2] == m[2] && p[3] == m[3];
    }
  }

  /** A whole message at the front. */
  lemma WholeFirst(m: seq<byte>, rest: seq<byte>)
    requires WholeMessage(m)
    ensures HasMessage(m + rest) && MessageSize(m + rest) == |m| && (m + rest)[..|m|] == m && (m + rest)[|m|..] == rest
  {
    assert (m + rest)[1] == m[1] && (m + rest)[2] == m[2] && (m + rest)[3] == m[3];
  }

  /** What is left alone while messages are heard between the hello and the Finished. */
  predicate Along(s: State, t: State) {
    t == s.(said := t.said, taken := t.taken, pending := t.pending, certificate := t.certificate, heard := t.heard,
            read := t.read, inbox := t.inbox)
  }

  /** One message taken. */
  lemma OneMessage(c: Config, s: State, out: seq<byte>, m: seq<byte>, rest: seq<byte>) returns (t: State)
    requires s.stage == Encrypted && s.pending == m + rest && Between(m)
    ensures Messages(c, s, out) == Messages(c, t, out) && Along(s, t)
    ensures t.said == s.said + [m] && t.pending == rest && t.read == s.read && t.inbox == s.inbox && t.heard == s.heard
    ensures t.taken == s.taken + [m]
  {
    hide Greeted, Switched, FinishedData, ReadHello;
    WholeFirst(m, rest);
    t := Handle(c, Take(s), m).state;
    assert out + [] == out;
  }

  /** The front of the flight heard: some messages are taken, the others wait. */
  lemma {:induction false} MidMessages(c: Config, s: State, out: seq<byte>, ms: seq<seq<byte>>, fin: seq<byte>)
    returns (j: nat, t: State)
    requires s.stage == Encrypted && (forall m | m in ms :: Between(m)) && WholeMessage(fin)
    requires |s.pending| < |Joined(ms) + fin| && s.pending == (Joined(ms) + fin)[..|s.pending|]
    ensures Messages(c, s, out) == Fed(t, out, Running) && Along(s, t) && t.stage == Encrypted
    ensures j <= |ms| && t.said == s.said + ms[..j] && |Joined(ms[..j])| <= |s.pending|
    ensures t.taken == s.taken + ms[..j]
    ensures t.pending == s.pending[|Joined(ms[..j])|..] && t.read == s.read && t.inbox == s.inbox && t.heard == s.heard
    decreases |ms|
  {
    hide Joined, Messages, Handle, HasMessage, WholeMessage, Between;
    JoinedNone();
    if ms == [] || |s.pending| < |ms[0]| {
      j, t := 0, s;
      assert ms[..0] == [];
      assert s.said + [] == s.said && s.taken + [] == s.taken;
      NoneWhole(ms, fin, s.pending);
      NoMessages(c, s, out);
    } else {
      assert ms[0] in ms && Between(ms[0]);
      var m, rest := ms[0], s.pending[|ms[0]|..];
      Peeled(ms, fin, s.pending);
      var u := OneMessage(c, s, out, m, rest);
      var k;
      k, t := MidMessages(c, u, out, ms[1..], fin);
      j := k + 1;
      FrontCons(ms, k);
      assert s.said + [m] + ms[1..][..k] == s.said + ms[..j] && s.taken + [m] + ms[1..][..k] == s.taken + ms[..j];
      assert rest[|Joined(ms[1..][..k])|..] == s.pending[|Joined(ms[..j])|..];
    }
  }

  lemma NoneWhole(ms: seq<seq<byte>>, fin: seq<byte>, pending: seq<byte>)
    requires (forall m | m in ms :: Between(m)) && WholeMessage(fin)
    requires |pending| < |Joined(ms) + fin| && pending == (Joined(ms) + fin)[..|pending|]
    requires ms == [] || |pending| < |ms[0]|
    ensures !HasMessage(pending)
  {
    hide Joined;
    JoinedNone();
    if ms == [] {
      assert Joined(ms) + fin == fin + [];
      NotWhole(fin, [], pending);
    } else {
      assert ms[0] in ms && Between(ms[0]);
      FirstOf(ms, fin);
      NotWhole(ms[0], Joined(ms[1..]) + fin, pending);
    }
  }

  lemma Peeled(ms: seq<seq<byte>>, fin: seq<byte>, pending: seq<byte>)
    requires ms != [] && |ms[0]| <= |pending| <= |Joined(ms) + fin| && pending == (Joined(ms) + fin)[..|pending|]
    ensures var rest := pending[|ms[0]|..];
            && pending == ms[0] + rest && |rest| <= |Joined(ms[1..]) + fin|
            && rest == (Joined(ms[1..]) + fin)[..|rest|]
    ensures |Joined(ms) + fin| == |ms[0]| + |Joined(ms[1..]) + fin|
  {
    hide Joined;
    FirstOf(ms, fin);
    var all := Joined(ms) + fin;
    TailFront(all, |pending|, |ms[0]|);
    assert pending[..|ms[0]|] == all[..|ms[0]|] == ms[0];
    assert all[|ms[0]|..] == Joined(ms[1..]) + fin;
  }

  lemma FrontCons(ms: seq<seq<byte>>, k: nat)
    requires k < |ms|
    ensures ms[..k + 1] == [ms[0]] + ms[1..][..k] && Joined(ms[..k + 1]) == ms[0] + Joined(ms[1..][..k])
  {
    hide Joined;
    assert ms[..k + 1] == [ms[0]] + ms[1..][..k];
    JoinedCons(ms[0], ms[1..][..k]);
  }

  lemma TailFront(all: seq<byte>, n: nat, k: nat)
    requires k <= n <= |all|
    ensures all[..n][k..] == all[k..][..n - k]
  {
  }

  lemma NoMessages(c: Config, s: State, out: seq<byte>)
    requires !HasMessage(s.pending)
    ensures Messages(c, s, out) == Fed(s, out, Running)
  {
  }

  lemma FirstOf(ms: seq<seq<byte>>, fin: seq<byte>)
    requires ms != []
    ensures Joined(ms) + fin == ms[0] + (Joined(ms[1..]) + fin)
  {
    hide Joined;
    assert ms == [ms[0]] + ms[1..];
    JoinedCons(ms[0], ms[1..]);
  }

  /** The whole flight heard: the keys are switched, and the client's Finished goes
      out. */
  lemma {:induction false} EndMessages(c: Config, s: State, ms: seq<seq<byte>>, fin: seq<byte>) returns (t: State)
    requires s.stage == Encrypted && (forall m | m in ms :: Between(m)) && WholeMessage(fin) && Kind(fin) == 20
    requires s.pending == Joined(ms) + fin && Content(fin) == FinishedData(c, s.server, Joined(s.said + ms))
    ensures Messages(c, s, []) == Switched(c, t, fin) && Along(s, t) && t.stage == Encrypted
    ensures t.said == s.said + ms && t.pending == [] && t.inbox == s.inbox
    decreases |ms|
  {
    hide Joined, FinishedData;
    JoinedNone();
    if ms == [] {
      assert s.pending == fin + [];
      WholeFirst(fin, []);
      t := Take(s);
      assert s.said + [] == s.said;
      SwitchedRest(c, t, fin);
      assert [] + Switched(c, t, fin).out == Switched(c, t, fin).out;
      NoMessages(c, Switched(c, t, fin).state, Switched(c, t, fin).out);
    } else {
      FirstOf(ms, fin);
      var u := OneMessage(c, s, [], ms[0], Joined(ms[1..]) + fin);
      assert s.said + [ms[0]] + ms[1..] == s.said + ms;
      t := EndMessages(c, u, ms[1..], fin);
    }
  }

  // ---- Records ----------------------------------------------------------------------------------

  /** One record, whatever its kind, that leaves nothing behind. */
  lemma OneRecord(c: Config, s: State, header: seq<byte>, body: seq<byte>, read: Fed)
    requires s.inbox == [] && |header| == 5 && RecordSize(header) == 5 + |body|
    requires Process(c, s, header, body) == read && read.outcome.Running? && read.state.inbox == []
    ensures Feed(c, s, header + body) == read
  {
    hide Process, Records;
    var all := header + body;
    var t := s.(inbox := s.inbox + all);
    assert t.inbox == all && all[..5] == header && all[5..5 + |body|] == body && all[5 + |body|..] == [];
    assert t.(inbox := []) == s;
    RecordsStep(c, t, []);
    RecordsStep(c, read.state, read.out);
    assert [] + read.out == read.out;
  }

  /** A sealed record of handshake bytes is heard. */
  lemma HandshakeRecord(c: Config, s: State, keys: Keys, chunk: seq<byte>)
    requires s.read == Some(keys) && s.inbox == [] && |chunk| + 17 < 0x1_0000
    requires Hear(c, s.(read := Some(keys.Next())), chunk).outcome.Running?
    ensures Feed(c, s, Record(c.cipher, keys, HANDSHAKE, chunk)) == Hear(c, s.(read := Some(keys.Next())), chunk)
  {
    hide Feed, Hear, Keys.Next, Process;
    var header, body := Header(|chunk| + 17), Body(c.cipher, keys, HANDSHAKE, chunk);
    ProcessHandshake(c, s, keys, chunk);
    HeaderSize(|chunk| + 17);
    OneRecord(c, s, header, body, Hear(c, s.(read := Some(keys.Next())), chunk));
  }

  lemma HeaderSize(n: nat)
    requires n < 0x1_0000
    ensures RecordSize(Header(n)) == 5 + n
  {
  }

  lemma ProcessHandshake(c: Config, s: State, keys: Keys, chunk: seq<byte>)
    requires s.read == Some(keys)
    ensures Process(c, s, Header(|chunk| + 17), Body(c.cipher, keys, HANDSHAKE, chunk))
         == Hear(c, s.(read := Some(keys.Next())), chunk)
  {
    hide TlsRecords.Open, Body, Hear;
    OpenRecordBack(c.cipher, keys, HANDSHAKE, chunk);
  }

  /** The sealed flight, record by record. */
  lemma {:induction false} FlightHeard(c: Config, s: State, keys: Keys, chunks: seq<seq<byte>>, ms: seq<seq<byte>>,
      fin: seq<byte>) returns (t: State)
    requires s.stage == Encrypted && s.read == Some(keys) && s.inbox == []
    requires (forall m | m in ms :: Between(m)) && WholeMessage(fin) && Kind(fin) == 20
    requires chunks != [] && forall d | d in chunks :: d != [] && |d| + 17 < 0x1_0000
    requires s.pending + Joined(chunks) == Joined(ms) + fin
    requires Content(fin) == FinishedData(c, s.server, Joined(s.said + ms))
    ensures Feed(c, s, Joined(SealAll(c.cipher, keys, HandshakeItems(chunks)))) == Switched(c, t, fin)
    ensures Along(s, t) && t.stage == Encrypted && t.said == s.said + ms && t.pending == [] && t.inbox == []
    decreases |chunks|
  {
    hide Joined, FinishedData, Feed, Record, Messages, Switched, Keys.Next, SealAll, HandshakeItems;
    var d, rest, next := chunks[0], chunks[1..], s.(read := Some(keys.Next()));
    assert chunks == [d] + rest;
    JoinedCons(d, rest);
    SealedFirst(c.cipher, keys, d, rest);
    var heard := next.(pending := next.pending + d, heard := next.heard + d);
    JoinedNone();
    if rest == [] {
      assert heard.pending == Joined(ms) + fin by {
        assert d + [] == d;
      }
      t := EndMessages(c, heard, ms, fin);
      SwitchedRest(c, t, fin);
      HandshakeRecord(c, s, keys, d);
      SealedNone(c.cipher, keys.Next());
      assert Record(c.cipher, keys, HANDSHAKE, d) + [] == Record(c.cipher, keys, HANDSHAKE, d);
    } else {
      var all := Joined(ms) + fin;
      assert s.pending + d + Joined(rest) == all;
      SomeLeft(rest);
      assert heard.pending == all[..|heard.pending|];
      var j, u := MidMessages(c, heard, [], ms, fin);
      HandshakeRecord(c, s, keys, d);
      assert ms == ms[..j] + ms[j..];
      JoinedTwo(ms[..j], ms[j..]);
      assert u.pending + Joined(rest) == Joined(ms[j..]) + fin by {
        assert all[|Joined(ms[..j])|..] == Joined(ms[j..]) + fin;
        assert (heard.pending + Joined(rest))[|Joined(ms[..j])|..] == u.pending + Joined(rest);
      }
      assert u.said + ms[j..] == s.said + ms;
      t := FlightHeard(c, u, keys.Next(), rest, ms[j..], fin);
      Tls.Cut(c, s, Record(c.cipher, keys, HANDSHAKE, d), Joined(SealAll(c.cipher, keys.Next(), HandshakeItems(rest))));
      assert [] + Switched(c, t, fin).out == Switched(c, t, fin).out;
      SwitchedRest(c, t, fin);
    }
  }

  lemma SealedFirst(f: Cipher, keys: Keys, first: seq<byte>, rest: seq<seq<byte>>)
    ensures Joined(SealAll(f, keys, HandshakeItems([first] + rest)))
         == Record(f, keys, HANDSHAKE, first) + Joined(SealAll(f, keys.Next(), HandshakeItems(rest)))
  {
    hide Joined, Record;
    assert HandshakeItems([first] + rest)[1..] == HandshakeItems(rest) && ([first] + rest)[0] == first;
    JoinedCons(Record(f, keys, HANDSHAKE, first), SealAll(f, keys.Next(), HandshakeItems(rest)));
  }

  lemma SealedNone(f: Cipher, keys: Keys)
    ensures Joined(SealAll(f, keys, HandshakeItems([]))) == []
  {
    JoinedNone();
  }

  lemma SomeLeft(chunks: seq<seq<byte>>)
    requires chunks != [] && forall d | d in chunks :: d != []
    ensures |Joined(chunks)| > 0
  {
    var n := |chunks| - 1;
    assert chunks[n] in chunks;
  }

  lemma {:induction false} JoinedTwo(a: seq<seq<byte>>, b: seq<seq<byte>>)
    ensures Joined(a + b) == Joined(a) + Joined(b)
  {
    hide Joined;
    JoinedNone();
    if b == [] {
      assert a + b == a && Joined(a) + [] == Joined(a);
    } else {
      var n := |b| - 1;
      assert b == b[..n] + [b[n]] && a + b == a + b[..n] + [b[n]];
      JoinedTwo(a, b[..n]);
      JoinedSnoc(a + b[..n], b[n]);
      JoinedSnoc(b[..n], b[n]);
      assert Joined(a) + Joined(b[..n]) + b[n] == Joined(a) + (Joined(b[..n]) + b[n]);
    }
  }

  // ---- The handshake ----------------------------------------------------------------------------

  /** The ServerHello heard. */
  lemma HelloHeard(c: Config, hello: seq<byte>, greeting: seq<byte>, share: Secret)
    requires WholeMessage(greeting) && |greeting| < 0x1_0000 && Kind(greeting) == 2
    requires ReadHello(Content(greeting)) == Good(share)
    ensures var s := Started(hello);
            Feed(c, s, PlainRecord(HANDSHAKE, greeting))
            == Fed(Greeted(c, s.(heard := greeting, taken := [greeting]), greeting, share), [], Running)
  {
    hide Greeted, ReadHello, Feed, Messages, Process;
    var s := Started(hello);
    var header := [HANDSHAKE, 3, 3] + Be16(|greeting|);
    var next := s.(pending := s.pending + greeting, heard := s.heard + greeting);
    assert [] + greeting == greeting;
    var t := Greeted(c, s.(heard := greeting, taken := [greeting]), greeting, share);
    GreetingTaken(c, next, greeting, share);
    GreetedRest(c, s.(heard := greeting, taken := [greeting]), greeting, share);
    ProcessHello(c, s, header, greeting);
    PlainSize(|greeting|);
    OneRecord(c, s, header, greeting, Fed(t, [], Running));
  }

  lemma ProcessHello(c: Config, s: State, header: seq<byte>, body: seq<byte>)
    requires |header| == 5 && header[0] == HANDSHAKE && s.stage == Hello
    ensures Process(c, s, header, body) == Hear(c, s, body)
  {
    hide Hear;
  }

  lemma PlainSize(n: nat)
    requires n < 0x1_0000
    ensures var header := [HANDSHAKE, 3, 3] + Be16(n);
            |header| == 5 && RecordSize(header) == 5 + n && header[0] == HANDSHAKE
  {
    hide Be16;
    TlsHellos.Be16Is(n);
    assert [HANDSHAKE, 3, 3] + Be16(n) == [HANDSHAKE, 3, 3, n / 256, n % 256];
  }

  lemma GreetedRest(c: Config, s: State, whole: seq<byte>, share: Secret)
    ensures var t := Greeted(c, s, whole, share);
            && t.inbox == s.inbox && t.pending == s.pending && t.stage == Encrypted && t.received == s.received
            && t.said == s.said + [whole]
  {
    hide HandshakeSecret, MasterSecret, Derive, TrafficKeys, Joined;
  }

  lemma GreetingTaken(c: Config, s: State, greeting: seq<byte>, share: Secret)
    requires s.stage == Hello && s.pending == greeting && WholeMessage(greeting) && Kind(greeting) == 2
    requires ReadHello(Content(greeting)) == Good(share) && s.taken == []
    ensures Messages(c, s, []) == Fed(Greeted(c, s.(pending := [], taken := [greeting]), greeting, share), [], Running)
  {
    hide Greeted, ReadHello;
    assert greeting + [] == greeting;
    WholeFirst(greeting, []);
    var u := Take(s);
    assert u == s.(pending := [], taken := [greeting]) by {
      assert [] + [greeting] == [greeting];
    }
    GreetedRest(c, u, greeting, share);
    NoMessages(c, Greeted(c, u, greeting, share), []);
  }

  /** A ServerHello that is no retry, any messages of the kinds that may come, and a
      Finished that says what it must, sealed under the server's handshake keys in
      any cut: the client is connected, its transcript is all of that and its own
      Finished, which is on the wire, and both directions have their data keys. */
  lemma Handshake(c: Config, hello: seq<byte>, greeting: seq<byte>, share: Secret, ms: seq<seq<byte>>, fin: seq<byte>,
      chunks: seq<seq<byte>>, x: Chain, keys: Keys) returns (mine: seq<byte>, own: Keys, read: Keys, write: Keys)
    requires WholeMessage(greeting) && |greeting| < 0x1_0000 && Kind(greeting) == 2
    requires ReadHello(Content(greeting)) == Good(share)
    requires (forall m | m in ms :: Between(m)) && WholeMessage(fin) && Kind(fin) == 20
    requires Scheduled(c, share, Hash(c, Joined([hello, greeting])), Hash(c, Joined([hello, greeting] + ms + [fin])), x)
    requires FinishedSays(c, x.serverHandshake, Joined([hello, greeting] + ms), Content(fin))
    requires DirectionKeys(c, x.serverHandshake, keys)
    requires Joined(chunks) == Joined(ms) + fin
    requires chunks != [] && forall d | d in chunks :: d != [] && |d| + 17 < 0x1_0000
    ensures FinishedSays(c, x.clientHandshake, Joined([hello, greeting] + ms + [fin]), mine)
    ensures DirectionKeys(c, x.clientHandshake, own)
    ensures DirectionKeys(c, x.serverData, read) && DirectionKeys(c, x.clientData, write)
    ensures var wire := PlainRecord(HANDSHAKE, greeting) + Joined(SealAll(c.cipher, keys, HandshakeItems(chunks)));
            var r := Feed(c, Started(hello), wire);
            && r.outcome == Running && r.state.stage == Connected && r.state.received == [] && r.state.inbox == []
            && r.state.said == [hello, greeting] + ms + [fin] + [Message(20, mine)]
            && r.out == Record(c.cipher, own, HANDSHAKE, Message(20, mine))
            && r.state.read == Some(read) && r.state.write == Some(write)
  {
    hide Joined, Feed, Record, ReadHello, Hash, Expanded, ExpandLabel, Scheduled, FinishedSays, DirectionKeys, PlainRecord,
      SealAll, HandshakeItems, FinishedData, HandshakeSecret, MasterSecret, Derive, TrafficKeys, Message;
    HelloHeard(c, hello, greeting, share);
    var s := Greeted(c, Started(hello).(heard := greeting, taken := [greeting]), greeting, share);
    assert [hello] + [greeting] == [hello, greeting];
    var all := [hello, greeting] + ms + [fin];
    var finished := Hash(c, Joined(all));
    ScheduleIs(c, share, Hash(c, Joined([hello, greeting])), finished, x);
    KeysAre(c, x.serverHandshake, keys, Joined([hello, greeting] + ms), Content(fin));
    assert [] + Joined(chunks) == Joined(chunks);
    var t := FlightHeard(c, s, keys, chunks, ms, fin);
    Tls.Cut(c, Started(hello), PlainRecord(HANDSHAKE, greeting),
        Joined(SealAll(c.cipher, keys, HandshakeItems(chunks))));
    mine := FinishedData(c, t.client, Joined(t.said + [fin]));
    own, read, write := TrafficKeys(c, x.clientHandshake), TrafficKeys(c, x.serverData), TrafficKeys(c, x.clientData);
    KeysAre(c, x.clientHandshake, own, Joined(all), mine);
    KeysAre(c, x.serverData, read, [], []);
    KeysAre(c, x.clientData, write, [], []);
    assert t.said + [fin] == all;
    var r := Switched(c, t, fin);
    assert [] + r.out == r.out;
  }
}
