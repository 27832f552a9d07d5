/** The client side of a TLS 1.3 handshake, as a machine on values: what a piece
    of the server's bytes does to it. */
module Tls {
  import opened Base
  import opened Streams
  import opened ChaCha
  import opened TlsRecords
  import Sha256s

  type Secret = s: seq<byte> | |s| == 32
    witness [0, 0, 0, 0, 0, 0, 0, 0, 0, 0, 0, 0, 0, 0, 0, 0, 0, 0, 0, 0, 0, 0, 0, 0, 0, 0, 0, 0, 0, 0, 0, 0]

  const CHANGE_CIPHER: byte := 20
  const ALERT: byte := 21
  const HANDSHAKE: byte := 22
  const SUITE: nat := 0x1303
  const GROUP: nat := 0x1d
  const VERSION: nat := 0x304
  /** The random of a ServerHello that is a HelloRetryRequest. */
  const RETRY: seq<byte> := [
    0xcf, 0x21, 0xad, 0x74, 0xe5, 0x9a, 0x61, 0x11, 0xbe, 0x1d, 0x8c, 0x02, 0x1e, 0x65, 0xb8, 0x91,
    0xc2, 0xa2, 0x11, 0x16, 0x7a, 0xbb, 0x8c, 0x5e, 0x07, 0x9e, 0x09, 0xe2, 0xc8, 0xa8, 0x33, 0x9c]

  datatype Why =
    | ShortHello | AnotherExchange | AnotherCipher | NoExtensions | TruncatedExtension | ShortShare | NotTls13 | NoShare
    | OutOfOrder | BeforeKeys | UnexpectedInner | UnexpectedRecord | NotConnected | NoKeys

  datatype Problem = Alert(code: byte) | BadRecord | BadFinished | Protocol(why: Why)

  datatype Stage = Hello | Encrypted | Connected | Closed

  /** What the client is given: the ChaCha20 block function, SHA-256's
      compression function, HMAC, the key agreement and its own secret. */
  datatype Config = Config(cipher: Cipher, compress: Sha256s.Compress, hmac: (seq<byte>, seq<byte>) -> Secret,
                           agree: (Secret, Secret) -> Secret, secret: Secret)

  // ---- The key schedule, section 7.1 of RFC 8446 ------------------------------------------------

  lemma {:induction false} WordBytesLength(words: seq<nat>)
    ensures |WordBytes(words, 4)| == 4 * |words|
  {
    if words != [] {
      WordBytesLength(words[..|words| - 1]);
    }
  }

  function Hash(c: Config, message: seq<byte>): Secret {
    WordBytesLength(Fold(c.compress, Sha256s.H0, Sha256s.Padding(message), Sha256s.BLOCK));
    Sha256s.Digest(c.compress, message)
  }

  function Ascii(s: string): seq<byte> {
    seq(|s|, i requires 0 <= i < |s| => s[i] as int % 256)
  }

  /** HKDF-Expand-Label, for no more than one block. */
  function ExpandLabel(c: Config, secret: seq<byte>, name: string, context: seq<byte>, n: nat): (r: seq<byte>)
    requires n <= 32
    ensures |r| == n
  {
    c.hmac(secret, BigEndian(n, 2) + [(6 + |name|) % 256] + Ascii("tls13 " + name) + [|context| % 256] + context + [1])[..n]
  }

  function Derive(c: Config, secret: Secret, name: string, hash: Secret): Secret {
    ExpandLabel(c, secret, name, hash, 32)
  }

  function TrafficKeys(c: Config, secret: Secret): Keys {
    Keys(ExpandLabel(c, secret, "key", [], 32), ExpandLabel(c, secret, "iv", [], 12), 0)
  }

  function Zero(): Secret {
    Zeros(32)
  }

  /** From the server's share of the key exchange. */
  function HandshakeSecret(c: Config, share: Secret): Secret {
    c.hmac(Derive(c, c.hmac(Zero(), Zero()), "derived", Hash(c, [])), c.agree(c.secret, share))
  }

  function MasterSecret(c: Config, share: Secret): Secret {
    c.hmac(Derive(c, HandshakeSecret(c, share), "derived", Hash(c, [])), Zero())
  }

  /** What a Finished must say, for a sender's traffic secret and the transcript
      before it, section 4.4.4. */
  function FinishedData(c: Config, secret: Secret, transcript: seq<byte>): Secret {
    c.hmac(ExpandLabel(c, secret, "finished", [], 32), Hash(c, transcript))
  }

  // ---- Messages ---------------------------------------------------------------------------------

  function Message(kind: byte, body: seq<byte>): (r: seq<byte>)
    ensures |r| == |body| + 4
  {
    [kind] + BigEndian(|body|, 3) + body
  }

  /** How long a handshake message is, from its first four bytes. */
  function MessageSize(pending: seq<byte>): nat
    requires |pending| >= 4
  {
    4 + Word(pending[3], pending[2], pending[1], 0)
  }

  predicate HasMessage(pending: seq<byte>) {
    |pending| >= 4 && |pending| >= MessageSize(pending)
  }

  predicate WholeMessage(m: seq<byte>) {
    |m| >= 4 && |m| == MessageSize(m)
  }

  function At16(bytes: seq<byte>, at: nat): Option<nat> {
    if at + 1 < |bytes| then Some(Word(bytes[at + 1], bytes[at], 0, 0)) else None
  }

  datatype Scan = Found(version: Option<nat>, share: Option<Secret>) | Refused(why: Why)

  function ShareOf(data: seq<byte>): Secret
    requires |data| >= 36
  {
    data[4..36]
  }

  /** The extensions of a ServerHello, from `at` on; the last of a kind counts. */
  function Extensions(body: seq<byte>, at: nat, end: nat, version: Option<nat>, share: Option<Secret>): Scan
    requires end <= |body|
    decreases |body| + 1 - at
  {
    if at + 4 > end then Found(version, share)
    else
      var kind, length := At16(body, at).value, At16(body, at + 2).value;
      if at + 4 + length > |body| then Refused(TruncatedExtension)
      else
        var data := body[at + 4..at + 4 + length];
        if kind == 0x2b then Extensions(body, at + 4 + length, end, At16(data, 0), share)
        else if kind == 0x33 && At16(data, 0) == Some(GROUP) && At16(data, 2) == Some(32) then
          if length < 36 then Refused(ShortShare)
          else Extensions(body, at + 4 + length, end, version, Some(ShareOf(data)))
        else Extensions(body, at + 4 + length, end, version, share)
  }

  datatype Greeting = Good(share: Secret) | Bad(why: Why)

  /** What a ServerHello says. */
  function ReadHello(body: seq<byte>): Greeting {
    if |body| < 34 then Bad(ShortHello)
    else if body[2..34] == RETRY then Bad(AnotherExchange)
    else if |body| < 35 then Bad(ShortHello)
    else
      var at := 35 + Word(body[34], 0, 0, 0);
      if At16(body, at) != Some(SUITE) then Bad(AnotherCipher)
      else
        match At16(body, at + 3)
        case None => Bad(NoExtensions)
        case Some(length) =>
          match Extensions(body, at + 5, Lower(at + 5 + length, |body|), None, None)
          case Refused(why) => Bad(why)
          case Found(version, share) =>
            if version != Some(VERSION) then Bad(NotTls13)
            else if share == None then Bad(NoShare)
            else Good(share.value)
  }

  function Lower(a: nat, b: nat): nat {
    if a < b then a else b
  }

  // ---- The machine ------------------------------------------------------------------------------

  /** The client. `said` is the transcript, message by message; `heard` all the
      handshake bytes of the server, `taken` the messages made of them. */
  datatype State = State(stage: Stage, inbox: seq<byte>, pending: seq<byte>, client: Secret, server: Secret,
      master: Secret,
                         read: Option<Keys>, write: Option<Keys>, received: seq<byte>, certificate: nat,
                         said: seq<seq<byte>>, heard: seq<byte>, taken: seq<seq<byte>>)

  datatype Outcome = Running | Ended | Broken(problem: Problem)

  datatype Fed = Fed(state: State, out: seq<byte>, outcome: Outcome)

  /** After a good ServerHello: secrets and keys from the transcript that ends with
      it. */
  function Greeted(c: Config, s: State, whole: seq<byte>, share: Secret): State {
    var said := s.said + [whole];
    var hash, secret := Hash(c, Joined(said)), HandshakeSecret(c, share);
    var client, server := Derive(c, secret, "c hs traffic", hash), Derive(c, secret, "s hs traffic", hash);
    s.(stage := Encrypted, said := said, client := client, server := server, master := MasterSecret(c, share),
       read := Some(TrafficKeys(c, server)), write := Some(TrafficKeys(c, client)))
  }

  /** After a good Finished: ours goes out under the old keys, and both directions
      have new ones. */
  function Switched(c: Config, s: State, whole: seq<byte>): Fed {
    var said := s.said + [whole];
    var hash := Hash(c, Joined(said));
    var finished := Message(20, FinishedData(c, s.client, Joined(said)));
    var out := if s.write.Some? then Record(c.cipher, s.write.value, HANDSHAKE, finished) else [];
    Fed(s.(stage := Connected, said := said + [finished],
           read := Some(TrafficKeys(c, Derive(c, s.master, "s ap traffic", hash))),
           write := Some(TrafficKeys(c, Derive(c, s.master, "c ap traffic", hash)))), out, Running)
  }

  /** One whole handshake message. */
  function Handle(c: Config, s: State, whole: seq<byte>): (r: Fed)
    requires WholeMessage(whole)
    ensures r.state.pending == s.pending && r.state.inbox == s.inbox && !r.outcome.Ended?
  {
    var kind, body := whole[0], whole[4..];
    if s.stage == Hello && kind == 2 then
      match ReadHello(body)
      case Bad(why) => Fed(s, [], Broken(Protocol(why)))
      case Good(share) => Fed(Greeted(c, s, whole, share), [], Running)
    else if s.stage == Encrypted && kind in {8, 15} then Fed(s.(said := s.said + [whole]), [], Running)
    else if s.stage == Encrypted
        && kind == 11 then Fed(s.(certificate := |body|, said := s.said + [whole]), [], Running)
    else if s.stage == Encrypted && kind == 20 then
      if body == FinishedData(c, s.server, Joined(s.said)) then Switched(c, s, whole)
      else Fed(s, [], Broken(BadFinished))
    else if s.stage == Connected then Fed(s, [], Running)
    else Fed(s, [], Broken(Protocol(OutOfOrder)))
  }

  /** `Handle` applied until the bytes left hold no whole message, or one of them
      breaks the protocol. */
  function Messages(c: Config, s: State, out: seq<byte>): (r: Fed)
    ensures r.state.inbox == s.inbox && !r.outcome.Ended?
    decreases |s.pending|
  {
    if !HasMessage(s.pending) then Fed(s, out, Running)
    else
      var n := MessageSize(s.pending);
      var whole := s.pending[..n];
      var r := Handle(c, s.(pending := s.pending[n..], taken := s.taken + [whole]), whole);
      if r.outcome.Broken? then Fed(r.state, out + r.out, r.outcome)
      else Messages(c, r.state, out + r.out)
  }

  /** Handshake bytes that came in a record. */
  function Hear(c: Config, s: State, bytes: seq<byte>): (r: Fed)
    ensures r.state.inbox == s.inbox && !r.outcome.Ended?
  {
    Messages(c, s.(pending := s.pending + bytes, heard := s.heard + bytes), [])
  }

  /** What an opened record does. */
  function Inner(c: Config, s: State, kind: byte, plain: seq<byte>): (r: Fed)
    ensures r.state.inbox == s.inbox
  {
    if kind == HANDSHAKE then Hear(c, s, plain)
    else if kind == RECORD_DATA && s.stage == Connected then Fed(s.(received := s.received + plain), [], Running)
    else if kind == ALERT then
      if |plain| > 1 && plain[1] == 0 then Fed(s.(stage := Closed), [], Ended)
      else Fed(s, [], Broken(Alert(if |plain| > 1 then plain[1] else 0)))
    else Fed(s, [], Broken(Protocol(UnexpectedInner)))
  }

  /** What a record does. */
  function Process(c: Config, s: State, header: seq<byte>, body: seq<byte>): (r: Fed)
    requires |header| == 5
    ensures r.state.inbox == s.inbox
  {
    var kind := header[0];
    if kind == CHANGE_CIPHER then Fed(s, [], Running)
    else if kind == ALERT then Fed(s, [], Broken(Alert(if |body| > 1 then body[1] else 0)))
    else if kind == HANDSHAKE && s.stage == Hello then Hear(c, s, body)
    else if kind == RECORD_DATA then
      if s.read == None then Fed(s, [], Broken(Protocol(BeforeKeys)))
      else
        var keys := s.read.value;
        var next := s.(read := Some(keys.Next()));
        match TlsRecords.Open(c.cipher, keys, header, body)
        case None => Fed(next, [], Broken(BadRecord))
        case Some(item) => Inner(c, next, item.0, item.1)
    else Fed(s, [], Broken(Protocol(UnexpectedRecord)))
  }

  function RecordSize(inbox: seq<byte>): nat
    requires |inbox| >= 5
  {
    5 + Word(inbox[4], inbox[3], 0, 0)
  }

  predicate HasRecord(inbox: seq<byte>) {
    |inbox| >= 5 && |inbox| >= RecordSize(inbox)
  }

  /** Every whole record waiting, until one ends the connection or breaks it. */
  function Records(c: Config, s: State, out: seq<byte>): Fed
    decreases |s.inbox|
  {
    if !HasRecord(s.inbox) then Fed(s, out, Running)
    else
      var n := RecordSize(s.inbox);
      var r := Process(c, s.(inbox := s.inbox[n..]), s.inbox[..5], s.inbox[5..n]);
      if r.outcome.Running? then Records(c, r.state, out + r.out)
      else Fed(r.state, out + r.out, r.outcome)
  }

  /** What a piece of the server's bytes does. */
  function Feed(c: Config, s: State, bytes: seq<byte>): Fed {
    Records(c, s.(inbox := s.inbox + bytes), [])
  }

  lemma RecordsStep(c: Config, s: State, out: seq<byte>)
    ensures
      if !HasRecord(s.inbox) then Records(c, s, out) == Fed(s, out, Running)
      else
        var n := RecordSize(s.inbox);
        var r := Process(c, s.(inbox := s.inbox[n..]), s.inbox[..5], s.inbox[5..n]);
        Records(c, s, out) == if r.outcome.Running? then Records(c, r.state, out + r.out) else Fed(r.state,
            out + r.out, r.outcome)
  {
    hide Process;
  }

  // ---- However the bytes are cut ----------------------------------------------------------------

  /** Records waiting, when more bytes are behind them. */
  lemma {:induction false} MoreBehind(c: Config, s: State, out: seq<byte>, more: seq<byte>)
    ensures
      var first, both := Records(c, s, out), Records(c, s.(inbox := s.inbox + more), out);
      if first.outcome.Running? then both == Records(c, first.state.(inbox := first.state.inbox + more), first.out)
      else both == first.(state := first.state.(inbox := first.state.inbox + more))
    decreases |s.inbox|
  {
    hide Process;
    var longer := s.(inbox := s.inbox + more);
    if HasRecord(s.inbox) {
      var n := RecordSize(s.inbox);
      assert longer.inbox[..5] == s.inbox[..5] && longer.inbox[5..n] == s.inbox[5..n]
          && longer.inbox[n..] == s.inbox[n..] + more;
      var rest := s.(inbox := s.inbox[n..]);
      ProcessInbox(c, rest, s.inbox[..5], s.inbox[5..n], s.inbox[n..] + more);
      var r := Process(c, rest, s.inbox[..5], s.inbox[5..n]);
      if r.outcome.Running? {
        MoreBehind(c, r.state, out + r.out, more);
      }
    }
  }

  /** Processing a record does not look at the bytes behind it. */
  lemma ProcessInbox(c: Config, s: State, header: seq<byte>, body: seq<byte>, inbox: seq<byte>)
    requires |header| == 5
    ensures Process(c, s.(inbox := inbox), header, body)
         == (var r := Process(c, s, header, body); r.(state := r.state.(inbox := inbox)))
  {
    hide Hear, TlsRecords.Open;
    if header[0] == HANDSHAKE && s.stage == Hello {
      HearInbox(c, s, body, inbox);
    } else if header[0] == RECORD_DATA && s.read.Some? {
      var r := TlsRecords.Open(c.cipher, s.read.value, header, body);
      if r.Some? {
        HearInbox(c, s.(read := Some(s.read.value.Next())), r.value.1, inbox);
      }
    }
  }

  lemma HearInbox(c: Config, s: State, bytes: seq<byte>, inbox: seq<byte>)
    ensures Hear(c, s.(inbox := inbox), bytes) == (var r := Hear(c, s, bytes); r.(state := r.state.(inbox := inbox)))
  {
    hide Messages;
    MessagesInbox(c, s.(pending := s.pending + bytes, heard := s.heard + bytes), [], inbox);
  }

  lemma {:induction false} MessagesInbox(c: Config, s: State, out: seq<byte>, inbox: seq<byte>)
    ensures Messages(c, s.(inbox := inbox), out) == (var r := Messages(c, s,
            out); r.(state := r.state.(inbox := inbox)))
    decreases |s.pending|
  {
    hide Greeted, Switched, FinishedData, ReadHello;
    if HasMessage(s.pending) {
      var n := MessageSize(s.pending);
      var whole := s.pending[..n];
      var t := s.(pending := s.pending[n..], taken := s.taken + [whole]);
      HandleInbox(c, t, whole, inbox);
      var r := Handle(c, t, whole);
      if !r.outcome.Broken? {
        MessagesInbox(c, r.state, out + r.out, inbox);
      }
    }
  }

  lemma HandleInbox(c: Config, s: State, whole: seq<byte>, inbox: seq<byte>)
    requires WholeMessage(whole)
    ensures Handle(c, s.(inbox := inbox), whole) == (var r := Handle(c, s,
            whole); r.(state := r.state.(inbox := inbox)))
  {
    hide FinishedData, ReadHello, Hash, Derive, TrafficKeys, HandshakeSecret, MasterSecret, Message, Record;
  }

  /** What is sent first goes out first. */
  lemma {:induction false} OutFirst(c: Config, s: State, out: seq<byte>)
    ensures Records(c, s, out) == (var r := Records(c, s, []); r.(out := out + r.out))
    decreases |s.inbox|
  {
    hide Process;
    if HasRecord(s.inbox) {
      var n := RecordSize(s.inbox);
      var r := Process(c, s.(inbox := s.inbox[n..]), s.inbox[..5], s.inbox[5..n]);
      if r.outcome.Running? {
        OutFirst(c, r.state, out + r.out);
        OutFirst(c, r.state, [] + r.out);
        assert [] + r.out == r.out;
        var last := Records(c, r.state, []);
        assert out + r.out + last.out == out + (r.out + last.out);
      } else {
        assert [] + r.out == r.out;
      }
    } else {
      assert out + [] == out;
    }
  }

  /** Two pieces and both at once: the same state and the same answer in all,
      unless the first piece breaks or ends the connection; then the rest is
      not looked at. */
  lemma Cut(c: Config, s: State, a: seq<byte>, b: seq<byte>)
    ensures
      var first, both := Feed(c, s, a), Feed(c, s, a + b);
      if first.outcome.Running? then
        var second := Feed(c, first.state, b);
        both == Fed(second.state, first.out + second.out, second.outcome)
      else both == first.(state := first.state.(inbox := first.state.inbox + b))
  {
    hide Records;
    var first := Feed(c, s, a);
    assert s.inbox + (a + b) == s.inbox + a + b;
    MoreBehind(c, s.(inbox := s.inbox + a), [], b);
    if first.outcome.Running? {
      OutFirst(c, first.state.(inbox := first.state.inbox + b), first.out);
    }
  }

  /** The state with its first waiting message taken. */
  function Take(s: State): State
    requires HasMessage(s.pending)
  {
    var n := MessageSize(s.pending);
    s.(pending := s.pending[n..], taken := s.taken + [s.pending[..n]])
  }

  // ---- After the handshake ----------------------------------------------------------------------

  predicate Late(s: State) {
    s.stage == Connected || s.stage == Closed
  }

  /** What `r` is of a state, the keys for writing aside: they are not used any
      more, and a closed connection receives nothing more. */
  ghost predicate Aside(s: State, w: Option<Keys>, r: Fed, other: Fed) {
    && other == r.(state := r.state.(write := w)) && Late(r.state)
    && (s.stage == Closed ==> r.state.stage == Closed && r.state.received == s.received)
  }

  lemma {:induction false} MessagesAside(c: Config, s: State, out: seq<byte>, w: Option<Keys>)
    requires Late(s)
    ensures Aside(s, w, Messages(c, s, out), Messages(c, s.(write := w), out))
    decreases |s.pending|
  {
    hide Greeted, Switched, FinishedData, ReadHello;
    if HasMessage(s.pending) {
      var r := Handle(c, Take(s), s.pending[..MessageSize(s.pending)]);
      if !r.outcome.Broken? {
        MessagesAside(c, r.state, out + r.out, w);
      }
    }
  }

  lemma ProcessAside(c: Config, s: State, header: seq<byte>, body: seq<byte>, w: Option<Keys>)
    requires Late(s) && |header| == 5
    ensures Aside(s, w, Process(c, s, header, body), Process(c, s.(write := w), header, body))
  {
    hide Messages, TlsRecords.Open;
    if header[0] == RECORD_DATA && s.read.Some? {
      var r := TlsRecords.Open(c.cipher, s.read.value, header, body);
      if r.Some? && r.value.0 == HANDSHAKE {
        var t := s.(read := Some(s.read.value.Next()));
        MessagesAside(c, t.(pending := t.pending + r.value.1, heard := t.heard + r.value.1), [], w);
      }
    }
  }

  lemma {:induction false} RecordsAside(c: Config, s: State, out: seq<byte>, w: Option<Keys>)
    requires Late(s)
    ensures Aside(s, w, Records(c, s, out), Records(c, s.(write := w), out))
    decreases |s.inbox|
  {
    hide Process;
    if HasRecord(s.inbox) {
      var n := RecordSize(s.inbox);
      var t := s.(inbox := s.inbox[n..]);
      ProcessAside(c, t, s.inbox[..5], s.inbox[5..n], w);
      var r := Process(c, t, s.inbox[..5], s.inbox[5..n]);
      if r.outcome.Running? {
        RecordsAside(c, r.state, out + r.out, w);
      }
    }
  }

  lemma {:induction false} EndedClosed(c: Config, s: State, out: seq<byte>)
    ensures Records(c, s, out).outcome.Ended? ==> Records(c, s, out).state.stage == Closed
    decreases |s.inbox|
  {
    hide Hear, TlsRecords.Open;
    if HasRecord(s.inbox) {
      var n := RecordSize(s.inbox);
      var r := Process(c, s.(inbox := s.inbox[n..]), s.inbox[..5], s.inbox[5..n]);
      if r.outcome.Running? {
        EndedClosed(c, r.state, out + r.out);
      }
    }
  }

  /** A connection ends only by being closed. */
  lemma FeedEnded(c: Config, s: State, bytes: seq<byte>)
    ensures Feed(c, s, bytes).outcome.Ended? ==> Feed(c, s, bytes).state.stage == Closed
  {
    hide Records;
    EndedClosed(c, s.(inbox := s.inbox + bytes), []);
  }

  /** Once the handshake is done, what the client has sealed does not change what
      it takes in. */
  lemma FeedAside(c: Config, s: State, bytes: seq<byte>, w: Option<Keys>)
    requires Late(s)
    ensures Aside(s, w, Feed(c, s, bytes), Feed(c, s.(write := w), bytes))
  {
    hide Records;
    RecordsAside(c, s.(inbox := s.inbox + bytes), [], w);
  }

  /** What was received is kept. */
  lemma {:induction false} MessagesReceive(c: Config, s: State, out: seq<byte>)
    ensures Messages(c, s, out).state.received == s.received
    decreases |s.pending|
  {
    hide FinishedData, ReadHello, HandshakeSecret, MasterSecret, Message, Record;
    if HasMessage(s.pending) {
      var r := Handle(c, Take(s), s.pending[..MessageSize(s.pending)]);
      if !r.outcome.Broken? {
        MessagesReceive(c, r.state, out + r.out);
      }
    }
  }

  lemma ProcessReceives(c: Config, s: State, header: seq<byte>, body: seq<byte>)
    requires |header| == 5
    ensures s.received <= Process(c, s, header, body).state.received
  {
    hide Messages, TlsRecords.Open;
    MessagesReceive(c, s.(pending := s.pending + body, heard := s.heard + body), []);
    if header[0] == RECORD_DATA && s.read.Some? {
      var r := TlsRecords.Open(c.cipher, s.read.value, header, body);
      if r.Some? && r.value.0 == HANDSHAKE {
        var t := s.(read := Some(s.read.value.Next()));
        MessagesReceive(c, t.(pending := t.pending + r.value.1, heard := t.heard + r.value.1), []);
      }
    }
  }

  lemma {:induction false} RecordsReceive(c: Config, s: State, out: seq<byte>)
    ensures s.received <= Records(c, s, out).state.received
    decreases |s.inbox|
  {
    hide Process;
    if HasRecord(s.inbox) {
      var n := RecordSize(s.inbox);
      var t := s.(inbox := s.inbox[n..]);
      ProcessReceives(c, t, s.inbox[..5], s.inbox[5..n]);
      var r := Process(c, t, s.inbox[..5], s.inbox[5..n]);
      if r.outcome.Running? {
        RecordsReceive(c, r.state, out + r.out);
      }
    }
  }

  /** What a start of the server's bytes delivers is a start of what they all
      deliver. */
  lemma FeedReceives(c: Config, s: State, bytes: seq<byte>, more: seq<byte>)
    ensures Feed(c, s, bytes).state.received <= Feed(c, s, bytes + more).state.received
  {
    hide Records;
    var first := Feed(c, s, bytes);
    Cut(c, s, bytes, more);
    if first.outcome.Running? {
      RecordsReceive(c, first.state.(inbox := first.state.inbox + more), []);
    }
  }

  /** Piece after piece, until one breaks or ends the connection. */
  function FeedAll(c: Config, s: State, pieces: seq<seq<byte>>): Fed {
    if pieces == [] then Fed(s, [], Running)
    else
      var front := FeedAll(c, s, pieces[..|pieces| - 1]);
      if !front.outcome.Running? then front
      else
        var r := Feed(c, front.state, pieces[|pieces| - 1]);
        Fed(r.state, front.out + r.out, r.outcome)
  }

  /** However the bytes are cut, what they do is what they do in one piece; a
      connection that ended or broke keeps what came behind in its inbox. */
  lemma {:induction false} AnyCut(c: Config, s: State, pieces: seq<seq<byte>>)
    requires !HasRecord(s.inbox)
    ensures
      var all, whole := FeedAll(c, s, pieces), Feed(c, s, Joined(pieces));
      && all.outcome == whole.outcome && all.out == whole.out
      && (all.outcome.Running? ==> all.state == whole.state)
      && all.state.(inbox := []) == whole.state.(inbox := [])
  {
    hide Feed;
    if pieces == [] {
      FeedNothing(c, s);
    } else {
      var front, last := pieces[..|pieces| - 1], pieces[|pieces| - 1];
      AnyCut(c, s, front);
      Cut(c, s, Joined(front), last);
    }
  }

  lemma FeedNothing(c: Config, s: State)
    requires !HasRecord(s.inbox)
    ensures Feed(c, s, []) == Fed(s, [], Running)
  {
    hide Process;
    assert s.inbox + [] == s.inbox;
  }

  // ---- What every run keeps ---------------------------------------------------------------------

  function Kind(m: seq<byte>): byte {
    if m == [] then 0 else m[0]
  }

  function Content(m: seq<byte>): seq<byte> {
    if |m| < 4 then [] else m[4..]
  }

  /** Between the ServerHello and the Finished. */
  ghost predicate Middle(taken: seq<seq<byte>>, n: nat) {
    forall i | 1 <= i < n && i < |taken| :: Kind(taken[i]) in {8, 11, 15}
  }

  /** The secrets are those of the ServerHello and of the transcript through it. */
  ghost predicate Keyed(c: Config, s: State) {
    && |s.said| >= 2 && ReadHello(Content(s.said[1])).Good?
    && var share := ReadHello(Content(s.said[1])).share;
       var hash := Hash(c, Joined(s.said[..2]));
       && s.client == Derive(c, HandshakeSecret(c, share), "c hs traffic", hash)
       && s.server == Derive(c, HandshakeSecret(c, share), "s hs traffic", hash)
       && s.master == MasterSecret(c, share)
  }

  predicate SameKeys(keys: Option<Keys>, base: Keys) {
    keys.Some? && keys.value.key == base.key && keys.value.iv == base.iv
  }

  /** The handshake before its Finished: the transcript is the client's hello and
      the server's messages, the keys are the handshake keys. */
  ghost predicate Shaking(c: Config, hello: seq<byte>, s: State) {
    && s.said == [hello] + s.taken && Keyed(c, s)
    && Middle(s.taken, |s.taken|)
    && SameKeys(s.read, TrafficKeys(c, s.server)) && SameKeys(s.write, TrafficKeys(c, s.client))
  }

  /** The handshake done: the server's Finished matched the transcript before it,
      the client's followed, and the keys are the application keys. */
  ghost predicate Verified(c: Config, hello: seq<byte>, s: State) {
    var n := |s.said| - 1;
    && n >= 3 && Keyed(c, s) && n - 1 <= |s.taken|
    && s.said[..n] == [hello] + s.taken[..n - 1]
    && Middle(s.taken, n - 2)
    && Kind(s.said[n - 1]) == 20 && Content(s.said[n - 1]) == FinishedData(c, s.server, Joined(s.said[..n - 1]))
    && s.said[n] == Message(20, FinishedData(c, s.client, Joined(s.said[..n])))
    && var hash := Hash(c, Joined(s.said[..n]));
       && SameKeys(s.read, TrafficKeys(c, Derive(c, s.master, "s ap traffic", hash)))
       && SameKeys(s.write, TrafficKeys(c, Derive(c, s.master, "c ap traffic", hash)))
  }

  ghost predicate Inv(c: Config, hello: seq<byte>, s: State) {
    && (forall m | m in s.taken :: WholeMessage(m)) && s.heard == Joined(s.taken) + s.pending
    && match s.stage
       case Hello => s.said == [hello] && s.taken == [] && s.read == None && s.write == None && s.received == []
       case Encrypted => Shaking(c, hello, s) && s.received == []
       case Connected => Verified(c, hello, s)
       case Closed => Verified(c, hello, s) || (Shaking(c, hello, s) && s.received == [])
  }

  lemma TakeKeeps(s: State)
    requires HasMessage(s.pending) && s.heard == Joined(s.taken) + s.pending
    requires forall m | m in s.taken :: WholeMessage(m)
    ensures WholeMessage(s.pending[..MessageSize(s.pending)])
    ensures Take(s).heard == Joined(Take(s).taken) + Take(s).pending && forall m | m in Take(s).taken :: WholeMessage(m)
  {
    var n := MessageSize(s.pending);
    JoinedSnoc(s.taken, s.pending[..n]);
    assert s.pending == s.pending[..n] + s.pending[n..];
    assert Joined(s.taken) + s.pending[..n] + s.pending[n..] == Joined(s.taken) + (s.pending[..n] + s.pending[n..]);
  }

  lemma GreetedKeyed(c: Config, hello: seq<byte>, s: State, whole: seq<byte>)
    requires s.said == [hello] && s.taken == [whole] && ReadHello(Content(whole)).Good?
    ensures
      var t := Greeted(c, s, whole, ReadHello(Content(whole)).share);
      && Shaking(c, hello, t) && t.stage == Encrypted
      && t.heard == s.heard && t.taken == s.taken && t.pending == s.pending && t.received == s.received
  {
    hide ReadHello, Hash, Derive, TrafficKeys, HandshakeSecret, MasterSecret, Joined;
    var t := Greeted(c, s, whole, ReadHello(Content(whole)).share);
    assert t.said == [hello, whole] && t.said[..2] == t.said && t.said[1] == whole;
  }

  /** More of the transcript leaves its start, and what was derived from it. */
  lemma KeyedMore(c: Config, s: State, t: State, m: seq<byte>)
    requires Keyed(c, s) && t.said == s.said + [m] && t.client == s.client && t.server == s.server
    requires t.master == s.master
    ensures Keyed(c, t)
  {
    hide ReadHello, Hash, Derive, HandshakeSecret, MasterSecret, Joined;
    assert t.said[..2] == s.said[..2] && t.said[1] == s.said[1];
  }

  lemma MiddleKeeps(c: Config, hello: seq<byte>, s: State, t: State, whole: seq<byte>)
    requires Shaking(c, hello, s) && Kind(whole) in {8, 11, 15}
    requires t.said == s.said + [whole] && t.taken == s.taken + [whole]
    requires t.client == s.client && t.server == s.server && t.master == s.master && t.read == s.read
    requires t.write == s.write
    ensures Shaking(c, hello, t)
  {
    hide Keyed, TrafficKeys;
    KeyedMore(c, s, t, whole);
  }

  lemma SwitchedVerified(c: Config, hello: seq<byte>, s: State, t: State, whole: seq<byte>)
    requires Shaking(c, hello, s) && Kind(whole) == 20 && Content(whole) == FinishedData(c, s.server, Joined(s.said))
    requires t == s.(pending := t.pending, taken := s.taken + [whole])
    ensures Verified(c, hello, Switched(c, t, whole).state)
  {
    hide Keyed, TrafficKeys, Joined, FinishedData, Message, Hash, Derive, Record;
    var r := Switched(c, t, whole).state;
    var said := s.said + [whole];
    var finished := Message(20, FinishedData(c, s.client, Joined(said)));
    KeyedMore(c, s, s.(said := said), whole);
    KeyedMore(c, s.(said := said), r, finished);
    var n := |r.said| - 1;
    assert r.said == said + [finished] && r.said[..n] == said && r.said[..n - 1] == s.said && r.said[n - 1] == whole;
    assert Keyed(c, s) && |s.said| >= 2 by {
      KeyedSize(c, s);
    }
    assert r.taken[..n - 1] == r.taken;
  }

  lemma KeyedSize(c: Config, s: State)
    requires Keyed(c, s)
    ensures |s.said| >= 2
  {
  }

  lemma VerifiedMore(c: Config, hello: seq<byte>, s: State, t: State)
    requires Verified(c, hello, s) && s.taken <= t.taken
    requires t == s.(stage := t.stage, inbox := t.inbox, pending := t.pending, received := t.received,
             heard := t.heard, taken := t.taken,
                     read := t.read, write := t.write)
    requires t.read.Some? && t.read.value.key == s.read.value.key && t.read.value.iv == s.read.value.iv
    requires t.write == s.write
    ensures Verified(c, hello, t)
  {
    hide TrafficKeys, Joined, FinishedData, Message, Hash, Derive;
    var n := |s.said| - 1;
    assert t.taken[..n - 1] == s.taken[..n - 1];
  }

  lemma SwitchedRest(c: Config, t: State, whole: seq<byte>)
    ensures
      var r := Switched(c, t, whole);
      r.outcome.Running? && r.state.stage == Connected && r.state.heard == t.heard && r.state.taken == t.taken
          && r.state.pending == t.pending
  {
  }

  lemma HasKeys(c: Config, hello: seq<byte>, s: State)
    ensures Shaking(c, hello, s) || Verified(c, hello, s) ==> s.read.Some? && s.write.Some?
  {
    hide Keyed, Middle, Joined, FinishedData, Message, TrafficKeys, Derive;
  }

  /** One whole message keeps it. */
  lemma HandleKeeps(c: Config, hello: seq<byte>, s: State)
    requires Inv(c, hello, s) && HasMessage(s.pending)
    ensures WholeMessage(s.pending[..MessageSize(s.pending)])
    ensures
      var r := Handle(c, Take(s), s.pending[..MessageSize(s.pending)]);
      !r.outcome.Broken? ==> Inv(c, hello, r.state)
  {
    hide Shaking, Verified, Greeted, Switched, FinishedData, ReadHello, Joined;
    TakeKeeps(s);
    var whole := s.pending[..MessageSize(s.pending)];
    var t := Take(s);
    var r := Handle(c, t, whole);
    if r.outcome.Broken? {
      return;
    }
    match s.stage {
      case Hello =>
        GreetedKeyed(c, hello, t, whole);
      case Encrypted =>
        if whole[0] == 20 {
          SwitchedVerified(c, hello, s, t, whole);
          SwitchedRest(c, t, whole);
        } else {
          MiddleKeeps(c, hello, s, r.state, whole);
        }
      case Connected =>
        HasKeys(c, hello, s);
        VerifiedMore(c, hello, s, r.state);
      case Closed =>
    }
  }

  lemma {:induction false} MessagesKeep(c: Config, hello: seq<byte>, s: State, out: seq<byte>)
    requires Inv(c, hello, s)
    ensures !Messages(c, s, out).outcome.Broken? ==> Inv(c, hello, Messages(c, s, out).state)
    decreases |s.pending|
  {
    hide Inv, Handle;
    if HasMessage(s.pending) {
      HandleKeeps(c, hello, s);
      var whole := s.pending[..MessageSize(s.pending)];
      var r := Handle(c, Take(s), whole);
      if !r.outcome.Broken? {
        MessagesKeep(c, hello, r.state, out + r.out);
      }
    }
  }

  lemma HearKeeps(c: Config, hello: seq<byte>, s: State, bytes: seq<byte>)
    requires Inv(c, hello, s)
    ensures !Hear(c, s, bytes).outcome.Broken? ==> Inv(c, hello, Hear(c, s, bytes).state)
  {
    hide Shaking, Verified, Messages, Joined;
    var t := s.(pending := s.pending + bytes, heard := s.heard + bytes);
    assert Joined(s.taken) + s.pending + bytes == Joined(s.taken) + t.pending;
    SameHandshake(c, hello, s, t);
    MessagesKeep(c, hello, t, []);
  }

  /** What does not change the handshake. */
  lemma SameHandshake(c: Config, hello: seq<byte>, s: State, t: State)
    requires t == s.(stage := t.stage, inbox := t.inbox, pending := t.pending, received := t.received,
             heard := t.heard, read := t.read)
    requires s.read.Some? ==> t.read.Some? && t.read.value.key == s.read.value.key && t.read.value.iv == s.read.value.iv
    requires s.read == None ==> t.read == None
    ensures Verified(c, hello, s) ==> Verified(c, hello, t)
    ensures Shaking(c, hello, s) ==> Shaking(c, hello, t)
  {
    HasKeys(c, hello, s);
    hide TrafficKeys, Joined, FinishedData, Message, Hash, Derive;
  }

  /** One record keeps it. */
  lemma ProcessKeeps(c: Config, hello: seq<byte>, s: State, header: seq<byte>, body: seq<byte>)
    requires Inv(c, hello, s) && |header| == 5
    ensures !Process(c, s, header, body).outcome.Broken? ==> Inv(c, hello, Process(c, s, header, body).state)
  {
    hide Shaking, Verified, Hear, TlsRecords.Open, Joined;
    var r := Process(c, s, header, body);
    if header[0] == HANDSHAKE && s.stage == Hello {
      HearKeeps(c, hello, s, body);
    } else if header[0] == RECORD_DATA && s.read.Some? {
      var t := s.(read := Some(s.read.value.Next()));
      SameHandshake(c, hello, s, t);
      var item := TlsRecords.Open(c.cipher, s.read.value, header, body);
      if item.Some? && item.value.0 == HANDSHAKE {
        HearKeeps(c, hello, t, item.value.1);
      } else if !r.outcome.Broken? {
        SameHandshake(c, hello, t, r.state);
      }
    }
  }

  lemma {:induction false} RecordsKeep(c: Config, hello: seq<byte>, s: State, out: seq<byte>)
    requires Inv(c, hello, s)
    ensures !Records(c, s, out).outcome.Broken? ==> Inv(c, hello, Records(c, s, out).state)
    decreases |s.inbox|
  {
    hide Inv, Process;
    if HasRecord(s.inbox) {
      var n := RecordSize(s.inbox);
      var t := s.(inbox := s.inbox[n..]);
      InboxKeeps(c, hello, s, t.inbox);
      ProcessKeeps(c, hello, t, s.inbox[..5], s.inbox[5..n]);
      var r := Process(c, t, s.inbox[..5], s.inbox[5..n]);
      if r.outcome.Running? {
        RecordsKeep(c, hello, r.state, out + r.out);
      }
    }
  }

  lemma InboxKeeps(c: Config, hello: seq<byte>, s: State, inbox: seq<byte>)
    requires Inv(c, hello, s)
    ensures Inv(c, hello, s.(inbox := inbox))
  {
    hide Shaking, Verified, Joined;
    SameHandshake(c, hello, s, s.(inbox := inbox));
  }

  /** Whatever the server sends, in whatever pieces. */
  lemma FeedKeeps(c: Config, hello: seq<byte>, s: State, bytes: seq<byte>)
    requires Inv(c, hello, s)
    ensures !Feed(c, s, bytes).outcome.Broken? ==> Inv(c, hello, Feed(c, s, bytes).state)
  {
    hide Inv, Records;
    InboxKeeps(c, hello, s, s.inbox + bytes);
    RecordsKeep(c, hello, s.(inbox := s.inbox + bytes), []);
  }

  // ---- The first flight -------------------------------------------------------------------------

  function Be16(n: nat): (r: seq<byte>)
    ensures |r| == 2
  {
    BigEndian(n % 0x1_0000, 2)
  }

  function Extension(kind: nat, body: seq<byte>): (r: seq<byte>)
    ensures |r| == |body| + 4
  {
    Be16(kind) + Be16(|body|) + body
  }

  function HelloExtensions(host: seq<byte>, public: Secret): (r: seq<byte>)
    ensures |r| == |host| + 80
  {
    Extension(0, Be16(|host| + 3) + [0] + Be16(|host|) + host)
    + Extension(0x0a, [0, 2, 0, 0x1d])
    + Extension(0x0d, [0, 8, 4, 3, 8, 4, 4, 1, 8, 7])
    + Extension(0x2b, [2, 3, 4])
    + Extension(0x33, Be16(36) + Be16(GROUP) + Be16(32) + public)
  }

  /** The ClientHello: one suite, one key exchange. */
  function ClientHello(host: seq<byte>, random: Secret, session: Secret, public: Secret): seq<byte> {
    Message(1, Be16(0x303) + random + [32] + session + Be16(2) + Be16(SUITE) + [1, 0]
               + Be16(|HelloExtensions(host, public)|) + HelloExtensions(host, public))
  }

  /** A record that is not sealed. */
  function PlainRecord(kind: byte, body: seq<byte>): seq<byte> {
    [kind, 3, 3] + Be16(|body|) + body
  }

  lemma BigEndian2(n: nat)
    requires n < 0x1_0000
    ensures BigEndian(n, 2) == [n / 256, n % 256]
  {
    assert BigEndian(n, 2) == BigEndian(n / 256, 1) + [n % 256];
    assert BigEndian(n / 256, 1) == BigEndian(0, 0) + [n / 256];
  }

  lemma BigEndian3(n: nat)
    requires n < 0x100_0000
    ensures BigEndian(n, 3) == [n / 256 / 256, n / 256 % 256, n % 256]
  {
    BigEndian2(n / 256);
    assert BigEndian(n, 3) == BigEndian(n / 256, 2) + [n % 256];
  }

  /** A message's length field is its length. */
  lemma MessageWhole(kind: byte, body: seq<byte>)
    requires |body| < 0x100_0000
    ensures WholeMessage(Message(kind, body))
  {
    hide BigEndian;
    BigEndian3(|body|);
    var n := |body|;
    assert n == 0x1_0000 * (n / 256 / 256) + 0x100 * (n / 256 % 256) + n % 256;
  }

  /** For any host name a server may have, the first flight is one whole record
      of one whole message. */
  lemma FirstFlight(host: seq<byte>, random: Secret, session: Secret, public: Secret)
    requires |host| < 0xff00
    ensures
      var hello := ClientHello(host, random, session, public);
      var out := PlainRecord(HANDSHAKE, hello);
      WholeMessage(hello) && HasRecord(out) && RecordSize(out) == |out| && out[5..] == hello
  {
    hide BigEndian, Message, HelloExtensions;
    var hello := ClientHello(host, random, session, public);
    var n := |hello|;
    assert n == |host| + 159;
    MessageWhole(1, hello[4..]);
    assert hello == Message(1, hello[4..]) by {
      MessageBody(1, Be16(0x303) + random + [32] + session + Be16(2) + Be16(SUITE) + [1, 0]
                     + Be16(|HelloExtensions(host, public)|) + HelloExtensions(host, public));
    }
    BigEndian2(n);
  }

  lemma MessageBody(kind: byte, body: seq<byte>)
    ensures Message(kind, body)[4..] == body
  {
  }

  // ---- Runs from the start ----------------------------------------------------------------------

  /** The client after its hello. */
  function Started(hello: seq<byte>): State {
    State(Hello, [], [], Zero(), Zero(), Zero(), None, None, [], 0, [hello], [], [])
  }

  /** Application data comes only after the server's Finished matched the
      transcript, which is the hello and the server's whole messages in order. */
  lemma OnlyVerified(c: Config, hello: seq<byte>, pieces: seq<seq<byte>>)
    ensures
      var r := FeedAll(c, Started(hello), pieces);
      !r.outcome.Broken? ==>
        && Inv(c, hello, r.state)
        && (r.state.received != [] || r.state.stage == Connected ==> Verified(c, hello, r.state))
        && (r.state.stage != Hello ==> Keyed(c, r.state))
  {
    hide Feed, Shaking, Verified, Keyed, Joined;
    AnyCut(c, Started(hello), pieces);
    var all, whole := FeedAll(c, Started(hello), pieces), Feed(c, Started(hello), Joined(pieces));
    if !all.outcome.Broken? {
      StartInv(c, hello);
      FeedKeeps(c, hello, Started(hello), Joined(pieces));
      InboxKeeps(c, hello, whole.state, all.state.inbox);
      assert all.state == whole.state.(inbox := all.state.inbox);
      IsKeyed(c, hello, all.state);
    }
  }

  lemma StartInv(c: Config, hello: seq<byte>)
    ensures Inv(c, hello, Started(hello))
  {
    JoinedNone();
  }

  lemma IsKeyed(c: Config, hello: seq<byte>, s: State)
    ensures Shaking(c, hello, s) || Verified(c, hello, s) ==> Keyed(c, s)
  {
    hide Keyed, Middle, Joined, FinishedData, Message, TrafficKeys, Derive;
  }

  lemma {:induction false} JoinedCons(m: seq<byte>, rest: seq<seq<byte>>)
    ensures Joined([m] + rest) == m + Joined(rest)
  {
    if rest == [] {
      assert [m] + rest == [] + [m];
      JoinedSnoc([], m);
      JoinedNone();
      assert [] + m == m == m + [];
    } else {
      var n := |rest| - 1;
      assert [m] + rest == [m] + rest[..n] + [rest[n]] && rest == rest[..n] + [rest[n]];
      JoinedSnoc([m] + rest[..n], rest[n]);
      JoinedSnoc(rest[..n], rest[n]);
      JoinedCons(m, rest[..n]);
      assert m + Joined(rest[..n]) + rest[n] == m + (Joined(rest[..n]) + rest[n]);
    }
  }

  /** Bytes are whole messages and a rest in one way only: the transcript is
      determined by the bytes the server sent. */
  lemma {:induction false} OneSplit(a: seq<seq<byte>>, p: seq<byte>, b: seq<seq<byte>>, q: seq<byte>)
    requires (forall m | m in a :: WholeMessage(m)) && (forall m | m in b :: WholeMessage(m))
    requires Joined(a) + p == Joined(b) + q && !HasMessage(p) && !HasMessage(q)
    ensures a == b && p == q
    decreases |a|
  {
    hide Joined;
    JoinedNone();
    if a == [] && b == [] {
      assert p == Joined(a) + p && q == Joined(b) + q;
    } else if a == [] {
      assert p == Joined(a) + p;
      Starts(b, q);
    } else if b == [] {
      assert q == Joined(b) + q;
      Starts(a, p);
    } else {
      Starts(a, p);
      Starts(b, q);
      var all := Joined(a) + p;
      assert a[0] == all[..|a[0]|] == b[0];
      assert Joined(a[1..]) + p == all[|a[0]|..] == Joined(b[1..]) + q;
      OneSplit(a[1..], p, b[1..], q);
      assert a == [a[0]] + a[1..] && b == [b[0]] + b[1..];
    }
  }

  lemma Starts(a: seq<seq<byte>>, p: seq<byte>)
    requires a != [] && WholeMessage(a[0])
    ensures Joined(a) + p == a[0] + (Joined(a[1..]) + p)
    ensures HasMessage(Joined(a) + p) && MessageSize(Joined(a) + p) == |a[0]|
  {
    hide Joined;
    assert a == [a[0]] + a[1..];
    JoinedCons(a[0], a[1..]);
    assert a[0] + Joined(a[1..]) + p == a[0] + (Joined(a[1..]) + p);
  }

  // ---- Data, end to end -------------------------------------------------------------------------

  /** Data, in records. */
  function Items(data: seq<seq<byte>>): (r: seq<Item>)
    ensures |r| == |data| && forall i | 0 <= i < |r| :: r[i] == (RECORD_DATA, data[i])
  {
    seq(|data|, i requires 0 <= i < |data| => (RECORD_DATA, data[i]))
  }

  /** One record that is read and leaves nothing behind. */
  lemma FeedOne(c: Config, s: State, body: seq<byte>, read: Fed)
    requires s.inbox == [] && |body| < 0x1_0000
    requires Process(c, s, Header(|body|), body) == read && read.outcome.Running? && read.state.inbox == []
    ensures Feed(c, s, Header(|body|) + body) == read
  {
    hide Process, Records;
    var header := Header(|body|);
    var all := header + body;
    var t := s.(inbox := s.inbox + all);
    assert t.inbox == all && all[..5] == header && all[5..5 + |body|] == body && all[5 + |body|..] == [];
    assert t.(inbox := []) == s;
    RecordsStep(c, t, []);
    RecordsStep(c, read.state, read.out);
    assert [] + read.out == read.out;
  }

  /** One record of data. */
  lemma FeedRecord(c: Config, s: State, keys: Keys, data: seq<byte>)
    requires s.stage == Connected && s.inbox == [] && s.read == Some(keys) && |data| + 17 < 0x1_0000
    ensures Feed(c, s, Record(c.cipher, keys, RECORD_DATA, data))
         == Fed(s.(received := s.received + data, read := Some(keys.Next())), [], Running)
  {
    hide Process, Header, Feed;
    ProcessData(c, s, keys, data);
    FeedOne(c, s, Body(c.cipher, keys, RECORD_DATA, data),
            Fed(s.(received := s.received + data, read := Some(keys.Next())), [], Running));
  }

  lemma ProcessData(c: Config, s: State, keys: Keys, data: seq<byte>)
    requires s.stage == Connected && s.read == Some(keys)
    ensures Process(c, s, Header(|data| + 17), Body(c.cipher, keys, RECORD_DATA, data))
         == Fed(s.(received := s.received + data, read := Some(keys.Next())), [], Running)
  {
    hide TlsRecords.Open, Body;
    OpenRecordBack(c.cipher, keys, RECORD_DATA, data);
  }

  lemma {:induction false} FeedRecords(c: Config, s: State, keys: Keys, data: seq<seq<byte>>)
    requires s.stage == Connected && s.inbox == [] && s.read == Some(keys)
    requires forall d | d in data :: |d| + 17 < 0x1_0000
    ensures Feed(c, s, Joined(SealAll(c.cipher, keys, Items(data))))
         == Fed(s.(received := s.received + Joined(data), read := Some(keys.After(|data|))), [], Running)
    decreases |data|
  {
    hide Feed, Record, Joined, Items;
    JoinedNone();
    if data == [] {
      FeedNothing(c, s);
      assert s.received + Joined(data) == s.received;
      assert SealAll(c.cipher, keys, Items(data)) == [];
    } else {
      var record := Record(c.cipher, keys, RECORD_DATA, data[0]);
      var t := s.(received := s.received + data[0], read := Some(keys.Next()));
      assert Items(data)[1..] == Items(data[1..]);
      var rest := SealAll(c.cipher, keys.Next(), Items(data[1..]));
      FeedRecord(c, s, keys, data[0]);
      FeedRecords(c, t, keys.Next(), data[1..]);
      JoinedCons(record, rest);
      Cut(c, s, record, Joined(rest));
      assert data == [data[0]] + data[1..];
      JoinedCons(data[0], data[1..]);
      assert t.received + Joined(data[1..]) == s.received + (data[0] + Joined(data[1..]));
    }
  }

  /** Whatever the server seals under the client's read keys, the client
      receives, however the network cuts it. */
  lemma Delivered(c: Config, s: State, keys: Keys, data: seq<seq<byte>>, pieces: seq<seq<byte>>)
    requires s.stage == Connected && s.inbox == [] && s.read == Some(keys)
    requires forall d | d in data :: |d| + 17 < 0x1_0000
    requires Joined(pieces) == Joined(SealAll(c.cipher, keys, Items(data)))
    ensures FeedAll(c, s, pieces) == Fed(s.(received := s.received + Joined(data), read := Some(keys.After(|data|))),
            [], Running)
  {
    hide Feed, FeedAll, Joined, SealAll;
    FeedRecords(c, s, keys, data);
    AnyCut(c, s, pieces);
  }

  /** What the client sends is cut into records of 16,000 bytes. */
  const CHUNK: nat := 16_000

  function Chunks(data: seq<byte>): seq<seq<byte>>
    decreases |data|
  {
    if data == [] then [] else if |data| <= CHUNK then [data] else [data[..CHUNK]] + Chunks(data[CHUNK..])
  }

  lemma {:induction false} ChunksIs(data: seq<byte>)
    ensures Joined(Chunks(data)) == data && forall d | d in Chunks(data) :: 0 < |d| <= CHUNK
    decreases |data|
  {
    hide Joined;
    JoinedNone();
    if data == [] {
    } else if |data| <= CHUNK {
      assert [data] == [data] + [];
      JoinedCons(data, []);
      assert data + [] == data;
    } else {
      ChunksIs(data[CHUNK..]);
      JoinedCons(data[..CHUNK], Chunks(data[CHUNK..]));
      assert data == data[..CHUNK] + data[CHUNK..];
    }
  }

  /** What a client seals, another one with the same keys receives. */
  lemma Echo(c: Config, s: State, keys: Keys, data: seq<byte>)
    requires s.stage == Connected && s.inbox == [] && s.read == Some(keys)
    ensures Feed(c, s, Joined(SealAll(c.cipher, keys, Items(Chunks(data)))))
         == Fed(s.(received := s.received + data, read := Some(keys.After(|Chunks(data)|))), [], Running)
  {
    hide Feed, Joined, Chunks, SealAll, Items;
    ChunksIs(data);
    FeedRecords(c, s, keys, Chunks(data));
  }
}
