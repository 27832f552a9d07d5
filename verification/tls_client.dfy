/** The TLS client as the object it is: its transcript is a running SHA-256, and
    its methods do to its fields what the machine of `Tls` does to its state. */
module TlsClients {
  import opened Base
  import opened Streams
  import opened ChaCha
  import opened TlsRecords
  import opened Tls
  import opened Sha256s

  class Client {
    const config: Config
    const transcript: Sha256
    var stage: Stage
    var inbox: seq<byte>
    var pending: seq<byte>
    var client: Secret
    var server: Secret
    var master: Secret
    var read: Option<Keys>
    var write: Option<Keys>
    var received: seq<byte>
    var certificate: nat
    ghost var said: seq<seq<byte>>
    ghost var heard: seq<byte>
    ghost var taken: seq<seq<byte>>

    /** The machine's state. */
    ghost function Now(): State
      reads this
    {
      State(stage, inbox, pending, client, server, master, read, write, received, certificate, said, heard, taken)
    }

    /** What was hashed is what was said. */
    ghost predicate Valid()
      reads this`said, transcript, transcript.buffer
    {
      && transcript.Valid() && transcript.compress == config.compress
      && transcript.fed == Joined(said) && transcript.total == |transcript.fed| % WIDTH
    }

    constructor (c: Config)
      ensures Valid() && config == c && fresh(transcript) && fresh(transcript.buffer)
      ensures Now() == Started([]).(said := [])
    {
      config := c;
      transcript := new Sha256(c.compress);
      stage, inbox, pending, received, certificate := Hello, [], [], [], 0;
      client, server, master := Zero(), Zero(), Zero();
      read, write := None, None;
      said, heard, taken := [], [], [];
      new;
      JoinedNone();
    }

    /** A message goes into the transcript. */
    method Say(m: seq<byte>)
      requires Valid()
      modifies this`said, transcript, transcript.buffer
      ensures Valid() && said == old(said) + [m]
      ensures transcript.buffer == old(transcript.buffer)
    {
      Streams.JoinedSnoc(said, m);
      Sha256s.ModSum(|transcript.fed|, |m|);
      transcript.Update(m);
      said := said + [m];
    }

    /** The hash of the transcript so far. */
    method Hashed() returns (hash: Secret)
      requires Valid()
      ensures hash == Hash(config, Joined(said))
    {
      var copy := new Sha256.Clone(transcript);
      var out := copy.Finish();
      assert out == Hash(config, Joined(said));
      hash := out;
    }

    /** The first flight, ready for the wire. */
    method Greet(host: seq<byte>, random: Secret, session: Secret, public: Secret) returns (out: seq<byte>)
      requires Valid()
      modifies this`said, transcript, transcript.buffer
      ensures Valid() && transcript.buffer == old(transcript.buffer)
      ensures
        var hello := ClientHello(host, random, session, public);
        out == PlainRecord(HANDSHAKE, hello) && Now() == old(Now()).(said := old(said) + [hello])
    {
      hide ClientHello;
      var hello := ClientHello(host, random, session, public);
      Say(hello);
      out := PlainRecord(HANDSHAKE, hello);
    }

    /** Reads a ServerHello and starts the key schedule. */
    method ServerHello(body: seq<byte>) returns (problem: Option<Problem>)
      modifies this`client, this`master
      ensures match ReadHello(body)
              case Bad(why) => problem == Some(Protocol(why)) && Now() == old(Now())
              case Good(share) =>
                && problem == None
                && Now() == old(Now()).(client := HandshakeSecret(config, share), master := MasterSecret(config, share))
    {
      var greeting := ReadGreeting(body);
      if greeting.Bad? {
        return Some(Protocol(greeting.why));
      }
      hide ExpandLabel, Hash, ReadHello, Zero;
      var empty := Hash(config, []);
      var early := config.hmac(Zero(), Zero());
      var salt := Derive(config, early, "derived", empty);
      var handshake := config.hmac(salt, config.agree(config.secret, greeting.share));
      master := config.hmac(Derive(config, handshake, "derived", empty), Zero());
      client := handshake;
      problem := None;
    }

    /** Both traffic secrets and both directions' keys, from what was said so far. */
    method HandshakeKeys()
      requires Valid()
      modifies this`client, this`server, this`read, this`write
      ensures
        var hash := Hash(config, Joined(said));
        var mine := Derive(config, old(client), "c hs traffic", hash);
        var theirs := Derive(config, old(client), "s hs traffic", hash);
        Now() == old(Now()).(client := mine, server := theirs, read := Some(TrafficKeys(config, theirs)),
                             write := Some(TrafficKeys(config, mine)))
    {
      hide Hash, Joined, ExpandLabel;
      var hash := Hashed();
      var handshake := client;
      client := Derive(config, handshake, "c hs traffic", hash);
      server := Derive(config, handshake, "s hs traffic", hash);
      read := Some(TrafficKeys(config, server));
      write := Some(TrafficKeys(config, client));
    }

    /** Whether the server's Finished is the one the transcript asks for, looking
        at every byte. */
    method ServerFinished(verify: seq<byte>) returns (matches: bool)
      requires Valid()
      ensures matches <==> verify == FinishedData(config, server, Joined(said))
    {
      hide Hash, Joined, ExpandLabel, XorByte;
      var key := ExpandLabel(config, server, "finished", [], 32);
      var hash := Hashed();
      var expected := config.hmac(key, hash);
      if |verify| != 32 {
        return false;
      }
      matches := SameTag(expected, verify);
    }

    /** Sends `FinishedData` under the old keys and leaves the new ones. */
    method ClientFinished() returns (out: seq<byte>)
      requires Valid()
      modifies this`said, this`read, this`write, transcript, transcript.buffer
      ensures Valid() && transcript.buffer == old(transcript.buffer)
      ensures
        var hash := Hash(config, old(Joined(said)));
        var finished := Message(20, FinishedData(config, client, old(Joined(said))));
        && out == (if old(write).Some? then Record(config.cipher, old(write).value, HANDSHAKE, finished) else [])
        && Now() == old(Now()).(said := old(said) + [finished],
                                read := Some(TrafficKeys(config, Derive(config, master, "s ap traffic", hash))),
                                write := Some(TrafficKeys(config, Derive(config, master, "c ap traffic", hash))))
    {
      hide Hash, Joined, ExpandLabel, Message, Record, TrafficKeys;
      var hash := Hashed();
      var clientApp := Derive(config, master, "c ap traffic", hash);
      var serverApp := Derive(config, master, "s ap traffic", hash);
      var key := ExpandLabel(config, client, "finished", [], 32);
      var verify := config.hmac(key, hash);
      var finished := Message(20, verify);
      out := [];
      if write.Some? {
        var next;
        out, next := SealRecord(config.cipher, write.value, HANDSHAKE, finished);
        write := Some(next);
      }
      Say(finished);
      read := Some(TrafficKeys(config, serverApp));
      write := Some(TrafficKeys(config, clientApp));
    }

    /** One whole handshake message. */
    method HandleMessage(whole: seq<byte>) returns (out: seq<byte>, problem: Option<Problem>)
      requires Valid() && WholeMessage(whole)
      modifies this, transcript, transcript.buffer
      ensures Valid() && transcript.buffer == old(transcript.buffer)
      ensures
        var r := Handle(config, old(Now()), whole);
        Now() == r.state && out == r.out && problem == ProblemOf(r.outcome)
    {
      hide Hash, Joined, ExpandLabel, Message, Record, TrafficKeys, Derive, FinishedData, ReadHello, HandshakeSecret,
        MasterSecret, Valid;
      var kind, body := whole[0], whole[4..];
      out, problem := [], None;
      if stage == Hello && kind == 2 {
        problem := ServerHello(body);
        if problem == None {
          Say(whole);
          HandshakeKeys();
          stage := Encrypted;
        }
      } else if stage == Encrypted && kind in {8, 15} {
        Say(whole);
      } else if stage == Encrypted && kind == 11 {
        certificate := |body|;
        Say(whole);
      } else if stage == Encrypted && kind == 20 {
        var matches := ServerFinished(body);
        if !matches {
          return [], Some(BadFinished);
        }
        Say(whole);
        out := ClientFinished();
        stage := Connected;
      } else if stage != Connected {
        problem := Some(Protocol(OutOfOrder));
      }
    }

    /** As `Messages`: none is left whole, unless one broke the protocol. */
    method TakeMessages() returns (out: seq<byte>, problem: Option<Problem>)
      requires Valid()
      modifies this, transcript, transcript.buffer
      ensures Valid() && transcript.buffer == old(transcript.buffer)
      ensures
        var r := Messages(config, old(Now()), []);
        Now() == r.state && out == r.out && problem == ProblemOf(r.outcome)
    {
      hide Handle, Valid;
      out := [];
      while HasMessage(pending)
        invariant Valid() && transcript.buffer == old(transcript.buffer)
        invariant Messages(config, Now(), out) == Messages(config, old(Now()), [])
        decreases |pending|
      {
        var n := MessageSize(pending);
        var whole := pending[..n];
        pending := pending[n..];
        taken := taken + [whole];
        var more;
        more, problem := HandleMessage(whole);
        out := out + more;
        if problem.Some? {
          return;
        }
      }
      problem := None;
    }

    /** One record; `ended` when it says that the server has finished. */
    method ProcessRecord(header: seq<byte>, body: seq<byte>) returns (out: seq<byte>, problem: Option<Problem>,
        ended: bool)
      requires Valid() && |header| == 5
      modifies this, transcript, transcript.buffer
      ensures Valid() && transcript.buffer == old(transcript.buffer)
      ensures
        var r := Process(config, old(Now()), header, body);
        Now() == r.state && out == r.out && problem == ProblemOf(r.outcome) && ended == r.outcome.Ended?
    {
      hide Messages, Valid, TlsRecords.Open;
      out, problem, ended := [], None, false;
      var kind := header[0];
      if kind == CHANGE_CIPHER {
      } else if kind == ALERT {
        problem := Some(Problem.Alert(if |body| > 1 then body[1] else 0));
      } else if kind == HANDSHAKE && stage == Hello {
        pending, heard := pending + body, heard + body;
        out, problem := TakeMessages();
      } else if kind == RECORD_DATA {
        if read == None {
          return [], Some(Protocol(BeforeKeys)), false;
        }
        var item, next := OpenRecord(config.cipher, read.value, header, body);
        read := Some(next);
        if item == None {
          return [], Some(BadRecord), false;
        }
        var inner, plain := item.value.0, item.value.1;
        if inner == HANDSHAKE {
          pending, heard := pending + plain, heard + plain;
          out, problem := TakeMessages();
        } else if inner == RECORD_DATA && stage == Connected {
          received := received + plain;
        } else if inner == ALERT {
          if |plain| > 1 && plain[1] == 0 {
            stage := Closed;
            ended := true;
          } else {
            problem := Some(Problem.Alert(if |plain| > 1 then plain[1] else 0));
          }
        } else {
          problem := Some(Protocol(UnexpectedInner));
        }
      } else {
        problem := Some(Protocol(UnexpectedRecord));
      }
    }

    /** As `Feed`, in state and in answer. */
    method TakeIn(bytes: seq<byte>) returns (out: seq<byte>, problem: Option<Problem>)
      requires Valid()
      modifies this, transcript, transcript.buffer
      ensures Valid() && transcript.buffer == old(transcript.buffer)
      ensures
        var r := Feed(config, old(Now()), bytes);
        Now() == r.state && out == r.out && problem == ProblemOf(r.outcome)
    {
      hide Process, Valid, Records;
      inbox := inbox + bytes;
      out := [];
      while HasRecord(inbox)
        invariant Valid() && transcript.buffer == old(transcript.buffer)
        invariant Records(config, Now(), out) == Feed(config, old(Now()), bytes)
        decreases |inbox|
      {
        ghost var before := Now();
        RecordsStep(config, before, out);
        var n := RecordSize(inbox);
        var whole := inbox[..n];
        inbox := inbox[n..];
        assert whole[..5] == before.inbox[..5] && whole[5..] == before.inbox[5..n];
        var more, ended;
        more, problem, ended := ProcessRecord(whole[..5], whole[5..]);
        out := out + more;
        if problem.Some? || ended {
          return;
        }
      }
      RecordsStep(config, Now(), out);
      problem := None;
    }

    /** The chunks of the data, sealed one after the other; the keys are as many
        records further. */
    method Seal(data: seq<byte>) returns (out: seq<byte>, problem: Option<Problem>)
      requires Valid()
      modifies this`write
      ensures Valid() && Now() == old(Now()).(write := write)
      ensures old(stage) != Connected ==> problem == Some(Protocol(NotConnected)) && write == old(write)
      ensures old(stage) == Connected && old(write) == None ==> problem == Some(Protocol(NoKeys)) && write == old(write)
      ensures old(stage) == Connected && old(write).Some? ==>
        && problem == None
        && out == Joined(SealAll(config.cipher, old(write).value, Items(Chunks(data))))
        && write == Some(old(write).value.After(|Chunks(data)|))
    {
      hide Record, Joined, Keys.Next;
      out := [];
      if stage != Connected {
        return [], Some(Protocol(NotConnected));
      }
      if write == None {
        return [], Some(Protocol(NoKeys));
      }
      var keys := write.value;
      var at := 0;
      ghost var all := Joined(SealAll(config.cipher, keys, Items(Chunks(data))));
      assert data[0..] == data && [] + all == all;
      while at < |data|
        invariant at <= |data|
        invariant out + Joined(SealAll(config.cipher, keys, Items(Chunks(data[at..])))) == all
        invariant keys.After(|Chunks(data[at..])|) == old(write).value.After(|Chunks(data)|)
      {
        var end := Lower(at + CHUNK, |data|);
        ChunksStep(data, at);
        SealAllStep(config.cipher, keys, data[at..end], Chunks(data[end..]));
        var record;
        record, keys := SealRecord(config.cipher, keys, RECORD_DATA, data[at..end]);
        assert out + (record + Joined(SealAll(config.cipher, keys, Items(Chunks(data[end..])))))
            == out + record + Joined(SealAll(config.cipher, keys, Items(Chunks(data[end..]))));
        out := out + record;
        at := end;
      }
      assert data[at..] == [];
      NothingLeft(config.cipher, keys);
      assert out + [] == out;
      write := Some(keys);
      problem := None;
    }
  }

  /** The first chunk of what is left, and the others. */
  lemma ChunksStep(data: seq<byte>, at: nat)
    requires at < |data|
    ensures
      var end := Lower(at + CHUNK, |data|);
      Chunks(data[at..]) == [data[at..end]] + Chunks(data[end..])
  {
    var end := Lower(at + CHUNK, |data|);
    if |data| - at <= CHUNK {
      assert data[at..end] == data[at..] && data[end..] == [];
    } else {
      assert data[at..][..CHUNK] == data[at..end] && data[at..][CHUNK..] == data[end..];
    }
  }

  lemma SealAllStep(f: Cipher, keys: Keys, first: seq<byte>, rest: seq<seq<byte>>)
    ensures Joined(SealAll(f, keys, Items([first] + rest)))
         == Record(f, keys, RECORD_DATA, first) + Joined(SealAll(f, keys.Next(), Items(rest)))
    ensures keys.After(|[first] + rest|) == keys.Next().After(|rest|)
  {
    hide Joined, Record;
    assert Items([first] + rest)[1..] == Items(rest) && ([first] + rest)[0] == first;
    JoinedCons(Record(f, keys, RECORD_DATA, first), SealAll(f, keys.Next(), Items(rest)));
  }

  lemma NothingLeft(f: Cipher, keys: Keys)
    ensures Joined(SealAll(f, keys, Items(Chunks([])))) == [] && keys.After(|Chunks([])|) == keys
  {
    JoinedNone();
  }

  function ProblemOf(outcome: Outcome): Option<Problem> {
    if outcome.Broken? then Some(outcome.problem) else None
  }

  /** Reads a ServerHello, extension by extension. */
  method ReadGreeting(body: seq<byte>) returns (r: Greeting)
    ensures r == ReadHello(body)
  {
    hide Extensions, At16, Word, RETRY;
    if |body| < 34 {
      return Bad(ShortHello);
    }
    if body[2..34] == RETRY {
      return Bad(AnotherExchange);
    }
    if |body| < 35 {
      return Bad(ShortHello);
    }
    var at := 35 + Word(body[34], 0, 0, 0);
    if At16(body, at) != Some(SUITE) {
      return Bad(AnotherCipher);
    }
    var length := At16(body, at + 3);
    if length == None {
      return Bad(NoExtensions);
    }
    var scan := ReadExtensions(body, at + 5, Lower(at + 5 + length.value, |body|));
    if scan.Refused? {
      return Bad(scan.why);
    }
    if scan.version != Some(VERSION) {
      return Bad(NotTls13);
    }
    if scan.share == None {
      return Bad(NoShare);
    }
    r := Good(scan.share.value);
  }

  method ReadExtensions(body: seq<byte>, from: nat, end: nat) returns (scan: Scan)
    requires end <= |body|
    ensures scan == Extensions(body, from, end, None, None)
  {
    var at := from;
    var version: Option<nat>, share: Option<Secret> := None, None;
    while at + 4 <= end
      invariant Extensions(body, at, end, version, share) == Extensions(body, from, end, None, None)
      decreases |body| + 1 - at
    {
      var kind, size := At16(body, at).value, At16(body, at + 2).value;
      if at + 4 + size > |body| {
        return Refused(TruncatedExtension);
      }
      var data := body[at + 4..at + 4 + size];
      if kind == 0x2b {
        version := At16(data, 0);
      } else if kind == 0x33 && At16(data, 0) == Some(GROUP) && At16(data, 2) == Some(32) {
        if |data| < 36 {
          return Refused(ShortShare);
        }
        share := Some(ShareOf(data));
      }
      at := at + 4 + size;
    }
    scan := Found(version, share);
  }
}
