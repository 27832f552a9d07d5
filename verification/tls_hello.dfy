/** What a client reads in a ServerHello as section 4.1.3 of RFC 8446 lays it out. */
module TlsHellos {
  import opened Base
  import opened Streams
  import opened Tls

  const VERSIONS: nat := 0x2b
  const SHARES: nat := 0x33

  datatype Ext = Ext(kind: nat, data: seq<byte>)

  predicate Fits(e: Ext) {
    e.kind < 0x1_0000 && |e.data| < 0x1_0000
  }

  function ExtBytes(exts: seq<Ext>): seq<byte> {
    if exts == [] then []
    else
      var n := |exts| - 1;
      ExtBytes(exts[..n]) + Extension(exts[n].kind, exts[n].data)
  }

  /** The body of a ServerHello. */
  function HelloBody(random: Secret, session: seq<byte>, suite: nat, compression: byte, exts: seq<Ext>): seq<byte>
    requires |session| < 0x100
  {
    [3, 3] + random + [|session|] + session + Be16(suite) + [compression] + Be16(|ExtBytes(exts)|) + ExtBytes(exts)
  }

  /** The version that the last extension about it names. */
  function LastVersion(exts: seq<Ext>): Option<nat> {
    if exts == [] then None
    else
      var n := |exts| - 1;
      if exts[n].kind == VERSIONS then At16(exts[n].data, 0) else LastVersion(exts[..n])
  }

  /** An extension that says it carries an X25519 share. */
  predicate IsShare(e: Ext) {
    e.kind == SHARES && At16(e.data, 0) == Some(GROUP) && At16(e.data, 2) == Some(32)
  }

  predicate WholeShare(e: Ext) {
    IsShare(e) ==> |e.data| >= 36
  }

  function LastShare(exts: seq<Ext>): Option<Secret>
    requires forall e | e in exts :: WholeShare(e)
  {
    if exts == [] then None
    else
      var n := |exts| - 1;
      assert WholeShare(exts[n]);
      if IsShare(exts[n]) then Some(ShareOf(exts[n].data)) else LastShare(exts[..n])
  }

  lemma Be16Is(n: nat)
    requires n < 0x1_0000
    ensures Be16(n) == [n / 256, n % 256] && Word(n % 256, n / 256, 0, 0) == n
  {
    hide BigEndian;
    BigEndian2(n);
  }

  lemma Be16Read(before: seq<byte>, n: nat, after: seq<byte>)
    requires n < 0x1_0000
    ensures At16(before + Be16(n) + after, |before|) == Some(n)
  {
    hide Be16, Word;
    Be16Is(n);
    var all := before + Be16(n) + after;
    assert all[|before|] == Be16(n)[0] && all[|before| + 1] == Be16(n)[1];
  }

  /** Where an extension is among the bytes of all of them. */
  lemma {:induction false} ExtAt(exts: seq<Ext>, i: nat)
    requires i < |exts|
    ensures var at, all, e := |ExtBytes(exts[..i])|, ExtBytes(exts), exts[i];
            && at + 4 + |e.data| == |ExtBytes(exts[..i + 1])| <= |all|
            && all[at..at + 4 + |e.data|] == Extension(e.kind, e.data)
  {
    var n := |exts| - 1;
    assert exts[..i + 1][..i] == exts[..i] && exts[..i + 1][i] == exts[i];
    if i < n {
      assert exts[..n][..i] == exts[..i] && exts[..n][..i + 1] == exts[..i + 1];
      ExtAt(exts[..n], i);
    } else {
      assert exts[..n + 1] == exts;
    }
  }

  /** One extension read. */
  lemma ExtRead(body: seq<byte>, at: nat, e: Ext)
    requires Fits(e) && at + 4 + |e.data| <= |body| && body[at..at + 4 + |e.data|] == Extension(e.kind, e.data)
    ensures At16(body, at) == Some(e.kind) && At16(body, at + 2) == Some(|e.data|)
    ensures body[at + 4..at + 4 + |e.data|] == e.data
  {
    hide Be16, Word;
    Be16Is(e.kind);
    Be16Is(|e.data|);
    var x := body[at..at + 4 + |e.data|];
    assert x[0] == body[at] && x[1] == body[at + 1] && x[2] == body[at + 2] && x[3] == body[at + 3];
    assert x[4..] == body[at + 4..at + 4 + |e.data|];
  }

  /** The rest of the extensions read, those before them known. */
  lemma {:induction false} ExtsRead(body: seq<byte>, start: nat, exts: seq<Ext>, i: nat)
    requires i <= |exts| && forall e | e in exts :: Fits(e) && WholeShare(e)
    requires start + |ExtBytes(exts)| == |body| && body[start..] == ExtBytes(exts)
    ensures start + |ExtBytes(exts[..i])| <= |body|
    ensures Extensions(body, start + |ExtBytes(exts[..i])|, |body|, LastVersion(exts[..i]), LastShare(exts[..i]))
         == Found(LastVersion(exts), LastShare(exts))
    decreases |exts| - i
  {
    hide Extension, IsShare, At16, ExtBytes, ShareOf;
    assert exts[..|exts|] == exts;
    if i < |exts| {
      var at, e := start + |ExtBytes(exts[..i])|, exts[i];
      ExtAt(exts, i);
      Slice(body, start, at - start, at - start + 4 + |e.data|);
      ExtRead(body, at, e);
      assert exts[..i + 1][..i] == exts[..i] && exts[..i + 1][i] == e;
      ExtsRead(body, start, exts, i + 1);
      OneExt(body, at, e, LastVersion(exts[..i]), LastShare(exts[..i]));
    }
  }

  lemma Slice(s: seq<byte>, start: nat, i: nat, j: nat)
    requires i <= j && start + j <= |s|
    ensures s[start..][i..j] == s[start + i..start + j]
  {
  }

  lemma OneExt(body: seq<byte>, at: nat, e: Ext, version: Option<nat>, share: Option<Secret>)
    requires at + 4 + |e.data| <= |body| && WholeShare(e)
    requires At16(body, at) == Some(e.kind) && At16(body, at + 2) == Some(|e.data|)
    requires body[at + 4..at + 4 + |e.data|] == e.data
    ensures Extensions(body, at, |body|, version, share)
         == Extensions(body, at + 4 + |e.data|, |body|, if e.kind == VERSIONS then At16(e.data, 0) else version,
                       if IsShare(e) then Some(ShareOf(e.data)) else share)
  {
    hide At16;
  }

  /** A ServerHello gives the share of its last X25519 key share, when it is no
      retry, has the suite that was offered, and its last version is TLS 1.3; and
      it is refused for the first of these that fails. */
  lemma HelloRead(random: Secret, session: seq<byte>, suite: nat, compression: byte, exts: seq<Ext>)
    requires |session| < 0x100 && suite < 0x1_0000 && |ExtBytes(exts)| < 0x1_0000
    requires forall e | e in exts :: Fits(e) && WholeShare(e)
    ensures ReadHello(HelloBody(random, session, suite, compression, exts)) ==
              if random == RETRY then Bad(AnotherExchange)
              else if suite != SUITE then Bad(AnotherCipher)
              else if LastVersion(exts) != Some(VERSION) then Bad(NotTls13)
              else if LastShare(exts) == None then Bad(NoShare)
              else Good(LastShare(exts).value)
  {
    hide Extensions, ExtBytes, LastVersion, LastShare, At16, RETRY, Be16;
    var all := ExtBytes(exts);
    var body := HelloBody(random, session, suite, compression, exts);
    var front := [3, 3] + random + [|session|] + session;
    var middle := front + Be16(suite) + [compression];
    assert body[2..34] == random && body[34] == |session|;
    assert body == front + Be16(suite) + ([compression] + Be16(|all|) + all);
    Be16Read(front, suite, [compression] + Be16(|all|) + all);
    assert body == middle + Be16(|all|) + all;
    Be16Read(middle, |all|, all);
    var start := |middle| + 2;
    assert body[start..] == all;
    ExtsRead(body, start, exts, 0);
    NoExts();
    assert exts[..0] == [];
  }

  lemma NoExts()
    ensures ExtBytes([]) == [] && LastVersion([]) == None && LastShare([]) == None
  {
  }

  // ---- The ClientHello --------------------------------------------------------------------------

  /** A number on two bytes. */
  function Pair(n: nat): seq<byte> {
    [n / 0x100 % 0x100, n % 0x100]
  }

  /** The bytes of the first flight, as section 4.1.2 of RFC 8446 has them: TLS 1.2 as
      the legacy version, one cipher suite, TLS_CHACHA20_POLY1305_SHA256, no
      compression, and five extensions: the server's name, the group x25519, four
      signature schemes, the version TLS 1.3, and the key share. */
  lemma HelloBytes(host: seq<byte>, random: Secret, session: Secret, public: Secret)
    requires |host| < 0xff00
    ensures ClientHello(host, random, session, public) ==
              [0x01, 0x00] + Pair(|host| + 155)
              + [0x03, 0x03] + random + [0x20] + session + [0x00, 0x02, 0x13, 0x03, 0x01, 0x00]
              + Pair(|host| + 80)
              + ([0x00, 0x00] + Pair(|host| + 5) + Pair(|host| + 3) + [0x00] + Pair(|host|) + host)
              + [0x00, 0x0a, 0x00, 0x04, 0x00, 0x02, 0x00, 0x1d]
              + [0x00, 0x0d, 0x00, 0x0a, 0x00, 0x08, 0x04, 0x03, 0x08, 0x04, 0x04, 0x01, 0x08, 0x07]
              + [0x00, 0x2b, 0x00, 0x03, 0x02, 0x03, 0x04]
              + ([0x00, 0x33, 0x00, 0x26, 0x00, 0x24, 0x00, 0x1d, 0x00, 0x20] + public)
  {
    hide BigEndian, Be16, Pair, HelloExtensions;
    ExtensionsAre(host, public);
    var exts := HelloExtensions(host, public);
    var body := Be16(0x303) + random + [32] + session + Be16(2) + Be16(SUITE) + [1, 0] + Be16(|exts|) + exts;
    FixedPairs();
    Be16Pair(|host| + 80);
    assert body == [0x03, 0x03] + random + [0x20] + session + [0x00, 0x02, 0x13, 0x03, 0x01, 0x00]
                   + Pair(|host| + 80) + exts by {
      assert [0x00, 0x02] + [0x13, 0x03] + [1, 0] == [0x00, 0x02, 0x13, 0x03, 0x01, 0x00];
    }
    LengthBytes(|host| + 155);
    assert ClientHello(host, random, session, public) == [0x01, 0x00] + Pair(|host| + 155) + body;
  }

  lemma FixedPairs()
    ensures Be16(0x303) == [3, 3] && Be16(2) == [0, 2] && Be16(SUITE) == [0x13, 0x03]
  {
    hide Be16;
    Be16Is(0x303);
    Be16Is(2);
    Be16Is(SUITE);
  }

  lemma LengthBytes(n: nat)
    requires n < 0x1_0000
    ensures [1] + BigEndian(n, 3) == [0x01, 0x00] + Pair(n)
  {
    hide BigEndian;
    BigEndian3(n);
    ByteSmall(n);
  }

  lemma ByteSmall(n: nat)
    requires n < 0x1_0000
    ensures n / 256 / 256 == 0
  {
  }

  lemma Be16Pair(n: nat)
    requires n < 0x1_0000
    ensures Be16(n) == Pair(n)
  {
    hide Be16;
    Be16Is(n);
  }

  lemma ExtensionsAre(host: seq<byte>, public: Secret)
    requires |host| < 0xff00
    ensures HelloExtensions(host, public) ==
              ([0x00, 0x00] + Pair(|host| + 5) + Pair(|host| + 3) + [0x00] + Pair(|host|) + host)
              + [0x00, 0x0a, 0x00, 0x04, 0x00, 0x02, 0x00, 0x1d]
              + [0x00, 0x0d, 0x00, 0x0a, 0x00, 0x08, 0x04, 0x03, 0x08, 0x04, 0x04, 0x01, 0x08, 0x07]
              + [0x00, 0x2b, 0x00, 0x03, 0x02, 0x03, 0x04]
              + ([0x00, 0x33, 0x00, 0x26, 0x00, 0x24, 0x00, 0x1d, 0x00, 0x20] + public)
  {
    hide Be16, Extension, Pair;
    NameExtension(host);
    FixedExtensions();
    ShareExtension(public);
  }

  lemma NameExtension(host: seq<byte>)
    requires |host| < 0xff00
    ensures Extension(0, Be16(|host| + 3) + [0] + Be16(|host|) + host)
         == [0x00, 0x00] + Pair(|host| + 5) + Pair(|host| + 3) + [0x00] + Pair(|host|) + host
  {
    hide Be16, Extension, Pair;
    Be16Pair(|host| + 3);
    Be16Pair(|host|);
    var body := Be16(|host| + 3) + [0] + Be16(|host|) + host;
    assert |body| == |host| + 5;
    ExtensionIs(0, body);
    ZeroPair();
    assert [0x00, 0x00] + Pair(|host| + 5) + body
        == [0x00, 0x00] + Pair(|host| + 5) + Pair(|host| + 3) + [0x00] + Pair(|host|) + host;
  }

  lemma ZeroPair()
    ensures Pair(0) == [0x00, 0x00]
  {
  }

  lemma FixedExtensions()
    ensures Extension(0x0a, [0, 2, 0, 0x1d]) == [0x00, 0x0a, 0x00, 0x04, 0x00, 0x02, 0x00, 0x1d]
    ensures Extension(0x0d, [0, 8, 4, 3, 8, 4, 4, 1, 8, 7])
         == [0x00, 0x0d, 0x00, 0x0a, 0x00, 0x08, 0x04, 0x03, 0x08, 0x04, 0x04, 0x01, 0x08, 0x07]
    ensures Extension(0x2b, [2, 3, 4]) == [0x00, 0x2b, 0x00, 0x03, 0x02, 0x03, 0x04]
  {
    hide Extension;
    ExtensionIs(0x0a, [0, 2, 0, 0x1d]);
    ExtensionIs(0x0d, [0, 8, 4, 3, 8, 4, 4, 1, 8, 7]);
    ExtensionIs(0x2b, [2, 3, 4]);
  }

  lemma ShareExtension(public: Secret)
    ensures Extension(0x33, Be16(36) + Be16(GROUP) + Be16(32) + public)
         == [0x00, 0x33, 0x00, 0x26, 0x00, 0x24, 0x00, 0x1d, 0x00, 0x20] + public
  {
    hide Be16, Extension;
    Be16Pair(36);
    Be16Pair(GROUP);
    Be16Pair(32);
    var body := Be16(36) + Be16(GROUP) + Be16(32) + public;
    assert |body| == 38 && body == [0x00, 0x24, 0x00, 0x1d, 0x00, 0x20] + public;
    ExtensionIs(0x33, body);
  }

  lemma ExtensionIs(kind: nat, body: seq<byte>)
    requires kind < 0x1_0000 && |body| < 0x1_0000
    ensures Extension(kind, body) == Pair(kind) + Pair(|body|) + body
  {
    hide Be16;
    Be16Pair(kind);
    Be16Pair(|body|);
  }
}
