/** The key schedule of section 7.1 of RFC 8446, from the bytes up: the HkdfLabel
    as a reader of it takes it apart, and the chain of secrets made with it. */
module TlsSchedule {
  import opened Base
  import opened Streams
  import opened TlsRecords
  import opened Tls

  // ---- HkdfLabel --------------------------------------------------------------------------------

  /** A length of two bytes, then a label and a context, each behind its own length
      in one byte. */
  datatype Label = Label(length: nat, text: seq<byte>, context: seq<byte>)

  function ReadLabel(b: seq<byte>): Option<Label> {
    if |b| < 3 then None
    else
      var high: nat, low: nat, n: nat := b[0], b[1], b[2];
      if |b| < 4 + n then None
      else
        var m: nat := b[3 + n];
        if |b| != 4 + n + m then None else Some(Label(0x100 * high + low, b[3..3 + n], b[4 + n..]))
  }

  /** "tls13 " and a name, as bytes. */
  predicate Named(text: seq<byte>, name: string) {
    && |text| == 6 + |name|
    && text[..6] == [0x74, 0x6c, 0x73, 0x31, 0x33, 0x20]
    && forall i | 0 <= i < |name| :: text[6 + i] == name[i] as int
  }

  /** No two strings read as the same label, and so different contexts are in
      different strings. */
  lemma LabelOnce(a: seq<byte>, b: seq<byte>)
    requires ReadLabel(a).Some? && ReadLabel(a) == ReadLabel(b)
    ensures a == b
  {
    var n: nat, m: nat := a[2], a[3 + a[2]];
    HighLow(a[0], a[1], b[0], b[1]);
    assert n == |ReadLabel(a).value.text| == b[2];
    assert m == |ReadLabel(a).value.context| == b[3 + n];
    assert a == a[..3] + a[3..3 + n] + [a[3 + n]] + a[4 + n..];
    assert b == b[..3] + b[3..3 + n] + [b[3 + n]] + b[4 + n..];
    assert a[..3] == [a[0], a[1], a[2]] == b[..3];
  }

  lemma HighLow(a: nat, b: nat, c: nat, d: nat)
    requires b < 0x100 && d < 0x100
    ensures 0x100 * a + b == 0x100 * c + d ==> a == c && b == d
  {
  }

  /** HKDF-Expand-Label, for no more than 32 bytes: the HMAC of the label, whichever
      string reads as it, and a one. */
  lemma ExpandsLabel(c: Config, secret: seq<byte>, name: string, context: seq<byte>, n: nat, info: seq<byte>)
    requires n <= 32 && ReadLabel(info).Some? && Named(ReadLabel(info).value.text, name)
    requires ReadLabel(info).value.length == n && ReadLabel(info).value.context == context
    ensures ExpandLabel(c, secret, name, context, n) == c.hmac(secret, info + [1])[..n]
  {
    hide BigEndian;
    LabelIs(name, context, n);
    var mine := LabelBytes(name, context, n);
    assert ReadLabel(info).value.text == ReadLabel(mine).value.text by {
      NamedOnce(ReadLabel(info).value.text, ReadLabel(mine).value.text, name);
    }
    LabelOnce(mine, info);
  }

  function LabelBytes(name: string, context: seq<byte>, n: nat): seq<byte>
    requires |name| < 250 && |context| < 0x100 && n < 0x1_0000
  {
    BigEndian(n, 2) + [(6 + |name|) % 256] + Ascii("tls13 " + name) + [|context| % 256] + context
  }

  lemma LabelIs(name: string, context: seq<byte>, n: nat)
    requires |name| < 250 && |context| < 0x100 && n < 0x1_0000 && forall i | 0 <= i < |name| :: name[i] as int < 0x100
    ensures var r := ReadLabel(LabelBytes(name, context, n));
            r.Some? && r.value.length == n && Named(r.value.text, name) && r.value.context == context
  {
    hide BigEndian;
    BigEndian2(n);
    var text := Ascii("tls13 " + name);
    var b := LabelBytes(name, context, n);
    assert "tls13 " + name == ("tls13 " + name)[..6] + name;
    assert b[0] == n / 256 && b[1] == n % 256 && b[2] == 6 + |name|;
    assert b[3..3 + b[2]] == text;
    assert b[3 + b[2]] == |context| && b[4 + b[2]..] == context;
    Named13(name);
  }

  lemma Named13(name: string)
    requires forall i | 0 <= i < |name| :: name[i] as int < 0x100
    ensures Named(Ascii("tls13 " + name), name)
  {
    var all := "tls13 " + name;
    var text := Ascii(all);
    assert all[0] == 't' && all[1] == 'l' && all[2] == 's' && all[3] == '1' && all[4] == '3' && all[5] == ' ';
    assert text[..6] == [text[0], text[1], text[2], text[3], text[4], text[5]];
    forall i | 0 <= i < |name|
      ensures text[6 + i] == name[i] as int
    {
      assert all[6 + i] == name[i];
    }
  }

  lemma NamedOnce(a: seq<byte>, b: seq<byte>, name: string)
    requires Named(a, name) && Named(b, name)
    ensures a == b
  {
    forall i | 0 <= i < |a|
      ensures a[i] == b[i]
    {
      if i < 6 {
        assert a[i] == a[..6][i] && b[i] == b[..6][i];
      } else {
        assert a[6 + (i - 6)] == name[i - 6] as int == b[6 + (i - 6)];
      }
    }
  }

  // ---- The chain --------------------------------------------------------------------------------

  /** `out` is what HKDF-Expand-Label makes of a secret, a name and a context. */
  ghost predicate Expanded(c: Config, secret: seq<byte>, name: string, context: seq<byte>, n: nat, out: seq<byte>) {
    exists info ::
      && ReadLabel(info).Some? && Named(ReadLabel(info).value.text, name)
      && ReadLabel(info).value.length == n && ReadLabel(info).value.context == context
      && |out| == n <= 32 && out == c.hmac(secret, info + [1])[..n]
  }

  lemma ExpandedIs(c: Config, secret: seq<byte>, name: string, context: seq<byte>, n: nat, out: seq<byte>)
    requires n <= 32 && |name| < 250 && |context| < 0x100 && forall i | 0 <= i < |name| :: name[i] as int < 0x100
    ensures Expanded(c, secret, name, context, n, out) <==> out == ExpandLabel(c, secret, name, context, n)
  {
    hide ReadLabel, Named, ExpandLabel;
    if Expanded(c, secret, name, context, n, out) {
      var info :|
        && ReadLabel(info).Some? && Named(ReadLabel(info).value.text, name)
        && ReadLabel(info).value.length == n && ReadLabel(info).value.context == context
        && |out| == n <= 32 && out == c.hmac(secret, info + [1])[..n];
      ExpandsLabel(c, secret, name, context, n, info);
    }
    LabelIs(name, context, n);
    ExpandsLabel(c, secret, name, context, n, LabelBytes(name, context, n));
  }

  /** All secrets and keys of a handshake, one made of the other: 32 zeros extracted
      with 32 zeros, twice "derived", the secrets of the four directions. */
  datatype Chain = Chain(early: Secret, first: Secret, handshake: Secret, second: Secret, master: Secret,
                         clientHandshake: Secret, serverHandshake: Secret, clientData: Secret, serverData: Secret)

  ghost predicate Scheduled(c: Config, share: Secret, greeted: Secret, finished: Secret, x: Chain) {
    && x.early == c.hmac(Zeros(32), Zeros(32))
    && Expanded(c, x.early, "derived", Hash(c, []), 32, x.first)
    && x.handshake == c.hmac(x.first, c.agree(c.secret, share))
    && Expanded(c, x.handshake, "c hs traffic", greeted, 32, x.clientHandshake)
    && Expanded(c, x.handshake, "s hs traffic", greeted, 32, x.serverHandshake)
    && Expanded(c, x.handshake, "derived", Hash(c, []), 32, x.second)
    && x.master == c.hmac(x.second, Zeros(32))
    && Expanded(c, x.master, "c ap traffic", finished, 32, x.clientData)
    && Expanded(c, x.master, "s ap traffic", finished, 32, x.serverData)
  }

  /** What the client derives is that chain: `greeted` is the hash of the transcript
      through the ServerHello, `finished` that through the server's Finished. */
  lemma ScheduleIs(c: Config, share: Secret, greeted: Secret, finished: Secret, x: Chain)
    ensures Scheduled(c, share, greeted, finished, x) <==>
            && x.early == c.hmac(Zero(), Zero()) && x.first == Derive(c, x.early, "derived", Hash(c, []))
            && x.handshake == HandshakeSecret(c, share) && x.second == Derive(c, x.handshake, "derived", Hash(c, []))
            && x.master == MasterSecret(c, share)
            && x.clientHandshake == Derive(c, HandshakeSecret(c, share), "c hs traffic", greeted)
            && x.serverHandshake == Derive(c, HandshakeSecret(c, share), "s hs traffic", greeted)
            && x.clientData == Derive(c, MasterSecret(c, share), "c ap traffic", finished)
            && x.serverData == Derive(c, MasterSecret(c, share), "s ap traffic", finished)
  {
    hide Expanded, ExpandLabel, Hash;
    ExpandedIs(c, x.early, "derived", Hash(c, []), 32, x.first);
    ExpandedIs(c, x.handshake, "derived", Hash(c, []), 32, x.second);
    ExpandedIs(c, x.handshake, "c hs traffic", greeted, 32, x.clientHandshake);
    ExpandedIs(c, x.handshake, "s hs traffic", greeted, 32, x.serverHandshake);
    ExpandedIs(c, x.master, "c ap traffic", finished, 32, x.clientData);
    ExpandedIs(c, x.master, "s ap traffic", finished, 32, x.serverData);
  }

  /** The keys of a direction, section 7.3, and what a Finished says, section 4.4.4. */
  ghost predicate DirectionKeys(c: Config, secret: Secret, keys: Keys) {
    Expanded(c, secret, "key", [], 32, keys.key) && Expanded(c, secret, "iv", [], 12, keys.iv) && keys.sequence == 0
  }

  ghost predicate FinishedSays(c: Config, secret: Secret, transcript: seq<byte>, data: seq<byte>) {
    exists key :: Expanded(c, secret, "finished", [], 32, key) && data == c.hmac(key, Hash(c, transcript))
  }

  lemma KeysAre(c: Config, secret: Secret, keys: Keys, transcript: seq<byte>, data: seq<byte>)
    ensures DirectionKeys(c, secret, keys) <==> keys == TrafficKeys(c, secret)
    ensures FinishedSays(c, secret, transcript, data) <==> data == FinishedData(c, secret, transcript)
  {
    hide Expanded, ExpandLabel, Hash;
    ExpandedIs(c, secret, "key", [], 32, keys.key);
    ExpandedIs(c, secret, "iv", [], 12, keys.iv);
    if FinishedSays(c, secret, transcript, data) {
      var key :| Expanded(c, secret, "finished", [], 32, key) && data == c.hmac(key, Hash(c, transcript));
      ExpandedIs(c, secret, "finished", [], 32, key);
    }
    ExpandedIs(c, secret, "finished", [], 32, ExpandLabel(c, secret, "finished", [], 32));
  }

  /** In every run from the start that does not fail and reaches the handshake keys,
      the secrets are that chain's, for the share of the ServerHello and the
      transcript through it. */
  lemma RunScheduled(c: Config, hello: seq<byte>, pieces: seq<seq<byte>>) returns (x: Chain)
    requires !FeedAll(c, Started(hello), pieces).outcome.Broken?
    requires FeedAll(c, Started(hello), pieces).state.stage != Hello
    ensures var s := FeedAll(c, Started(hello), pieces).state;
            && |s.said| >= 2 && s.said[0] == hello && ReadHello(Content(s.said[1])).Good?
            && var share, greeted := ReadHello(Content(s.said[1])).share, Hash(c, Joined(s.said[..2]));
               var finished := Hash(c, Joined(s.said[..|s.said| - 1]));
               && Scheduled(c, share, greeted, finished, x)
               && s.client == x.clientHandshake && s.server == x.serverHandshake && s.master == x.master
               && (s.stage == Connected ==>
                     exists read, write ::
                       && DirectionKeys(c, x.serverData, read) && s.read.Some? && SameKeys(s.read, read)
                       && DirectionKeys(c, x.clientData, write) && s.write.Some? && SameKeys(s.write, write)
                       && FinishedSays(c, x.serverHandshake, Joined(s.said[..|s.said| - 2]),
                                       Content(s.said[|s.said| - 2])))
  {
    hide FeedAll, Hash, Derive, ExpandLabel, Scheduled, Expanded, HandshakeSecret, MasterSecret, FinishedData, Joined,
      ReadHello, DirectionKeys, FinishedSays, TrafficKeys;
    OnlyVerified(c, hello, pieces);
    var s := FeedAll(c, Started(hello), pieces).state;
    var share, greeted := ReadHello(Content(s.said[1])).share, Hash(c, Joined(s.said[..2]));
    var finished := Hash(c, Joined(s.said[..|s.said| - 1]));
    var early := c.hmac(Zero(), Zero());
    var handshake, master := HandshakeSecret(c, share), MasterSecret(c, share);
    x := Chain(early, Derive(c, early, "derived", Hash(c, [])), handshake, Derive(c, handshake, "derived", Hash(c, [])),
      master, Derive(c, handshake, "c hs traffic", greeted), Derive(c, handshake, "s hs traffic", greeted),
      Derive(c, master, "c ap traffic", finished), Derive(c, master, "s ap traffic", finished));
    ScheduleIs(c, share, greeted, finished, x);
    var read, write := TrafficKeys(c, x.serverData), TrafficKeys(c, x.clientData);
    var n := |s.said| - 1;
    KeysAre(c, x.serverData, read, [], []);
    KeysAre(c, x.clientData, write, [], []);
    KeysAre(c, x.serverHandshake, read, Joined(s.said[..n - 1]), Content(s.said[n - 1]));
  }
}
