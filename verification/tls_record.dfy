/** The record layer of TLS 1.3: one direction's keys, records sealed and
    opened in step. */
module TlsRecords {
  import opened Base
  import opened Numbers
  import opened Streams
  import opened ChaCha

  type Iv = s: seq<byte> | |s| == 12 witness [0, 0, 0, 0, 0, 0, 0, 0, 0, 0, 0, 0]

  const RECORD_DATA: byte := 23
  const WRAP: nat := 0x1_0000_0000_0000_0000

  /** The state of one direction: `sequence` counts its records modulo 2^64. */
  datatype Keys = Keys(key: seq<byte>, iv: Iv, sequence: nat)
  {
    /** The nonce of the next record: its number folded into the last eight
        bytes of the base. */
    function Nonce(): (r: seq<byte>)
      ensures |r| == 12
    {
      iv[..4] + seq(8, i requires 0 <= i < 8 => XorByte(iv[4 + i], BigEndian(sequence, 8)[i]))
    }

    function Next(): Keys {
      this.(sequence := (sequence + 1) % WRAP)
    }

    /** After `n` records. */
    function After(n: nat): Keys
      decreases n
    {
      if n == 0 then this else Next().After(n - 1)
    }
  }

  // ---- Nonces -----------------------------------------------------------------------------------

  lemma {:induction false} BigEndianUnique(x: nat, y: nat, n: nat)
    requires BigEndian(x, n) == BigEndian(y, n) && x < W8(n) && y < W8(n)
    ensures x == y
  {
    if n > 0 {
      var a, b := BigEndian(x / 256, n - 1), BigEndian(y / 256, n - 1);
      assert a == (a + [x % 256])[..n - 1] && b == (b + [y % 256])[..n - 1];
      assert (a + [x % 256])[n - 1] == x % 256 && (b + [y % 256])[n - 1] == y % 256;
      BigEndianUnique(x / 256, y / 256, n - 1);
    }
  }

  lemma W8At8()
    ensures W8(8) == WRAP
  {
    assert W8(1) == 0x100 * W8(0);
    hide W8;
    W8Sum(1, 1);
    W8Sum(2, 2);
    W8Sum(4, 4);
  }

  lemma XorSameOther(x: byte, a: byte, b: byte)
    requires XorByte(x, a) == XorByte(x, b)
    ensures a == b
  {
    hide Xor;
    XorBack(x, a);
    XorBack(x, b);
  }

  /** Records with different numbers have different nonces, until the counter
      wraps. */
  lemma NoncesDiffer(key: seq<byte>, iv: Iv, i: nat, j: nat)
    requires i < WRAP && j < WRAP
    ensures Keys(key, iv, i).Nonce() == Keys(key, iv, j).Nonce() <==> i == j
  {
    hide XorByte, BigEndian, W8;
    var a, b := Keys(key, iv, i).Nonce(), Keys(key, iv, j).Nonce();
    if a == b {
      forall k | 0 <= k < 8
        ensures BigEndian(i, 8)[k] == BigEndian(j, 8)[k]
      {
        assert a[4 + k] == XorByte(iv[4 + k], BigEndian(i, 8)[k]) && b[4 + k] == XorByte(iv[4 + k], BigEndian(j, 8)[k]);
        XorSameOther(iv[4 + k], BigEndian(i, 8)[k], BigEndian(j, 8)[k]);
      }
      W8At8();
      BigEndianUnique(i, j, 8);
    }
  }

  lemma {:induction false} AfterIs(keys: Keys, n: nat)
    requires keys.sequence < WRAP
    ensures keys.After(n) == keys.(sequence := (keys.sequence + n) % WRAP)
    decreases n
  {
    if n > 0 {
      AfterIs(keys.Next(), n - 1);
      Wrapped(keys.sequence, n);
    }
  }

  lemma Wrapped(x: nat, n: nat)
    requires x < WRAP && n > 0
    ensures ((x + 1) % WRAP + (n - 1)) % WRAP == (x + n) % WRAP
  {
  }

  /** No two of the first 2^64 records of a key are sealed with the same nonce. */
  lemma NoncesOnce(keys: Keys, i: nat, j: nat)
    requires keys.sequence < WRAP && i < j < i + WRAP
    ensures keys.After(i).Nonce() != keys.After(j).Nonce()
  {
    hide Keys.After, Keys.Nonce;
    AfterIs(keys, i);
    AfterIs(keys, j);
    var a, b := (keys.sequence + i) % WRAP, (keys.sequence + j) % WRAP;
    NotWrapped(keys.sequence + i, keys.sequence + j);
    NoncesDiffer(keys.key, keys.iv, a, b);
  }

  lemma NotWrapped(x: nat, y: nat)
    requires x < y < x + WRAP
    ensures x % WRAP != y % WRAP
  {
  }

  // ---- Sealing and opening ----------------------------------------------------------------------

  /** The header of a sealed record: it always says application data. */
  function Header(length: nat): (r: seq<byte>)
    ensures |r| == 5
  {
    [RECORD_DATA, 3, 3, length / 256 % 256, length % 256]
  }

  /** A record sealed: the real kind goes inside. */
  function Record(f: Cipher, keys: Keys, kind: byte, data: seq<byte>): seq<byte> {
    Header(|data| + 17) + Body(f, keys, kind, data)
  }

  function Body(f: Cipher, keys: Keys, kind: byte, data: seq<byte>): (r: seq<byte>)
    ensures |r| == |data| + 17
  {
    Sealed(f, keys.key, keys.Nonce(), Header(|data| + 17), data + [kind])
  }

  /** Without the zeros at the end. */
  function Stripped(plain: seq<byte>): (r: seq<byte>)
    ensures |r| <= |plain| && plain == r + Zeros(|plain| - |r|)
    ensures r != [] ==> r[|r| - 1] != 0
  {
    if plain == [] || plain[|plain| - 1] != 0 then plain else Stripped(plain[..|plain| - 1])
  }

  /** A record opened: its kind, and what it carried. */
  function Open(f: Cipher, keys: Keys, header: seq<byte>, body: seq<byte>): Option<(byte, seq<byte>)> {
    match Opened(f, keys.key, keys.Nonce(), header, body)
    case None => None
    case Some(plain) =>
      var inner := Stripped(plain);
      if inner == [] then None else Some((inner[|inner| - 1], inner[..|inner| - 1]))
  }

  lemma {:induction false} StrippedIs(s: seq<byte>, n: nat)
    requires s != [] ==> s[|s| - 1] != 0
    ensures Stripped(s + Zeros(n)) == s
  {
    if n > 0 {
      assert (s + Zeros(n))[..|s| + n - 1] == s + Zeros(n - 1);
      StrippedIs(s, n - 1);
    } else {
      assert s + Zeros(0) == s;
    }
  }

  /** What opens is what was sealed, with any padding, and nothing else: a record
      opens to `kind` and `data` exactly when it is their sealing, padded with
      zeros, and the kind is not zero. */
  lemma OpensTo(f: Cipher, keys: Keys, header: seq<byte>, body: seq<byte>, kind: byte, data: seq<byte>)
    ensures Open(f, keys, header, body) == Some((kind, data)) <==>
            kind != 0 && exists n: nat :: body == Sealed(f, keys.key, keys.Nonce(), header, data + [kind] + Zeros(n))
  {
    hide Sealed, Opened, Keys.Nonce, Stripped;
    var whole := Opened(f, keys.key, keys.Nonce(), header, body);
    if Open(f, keys, header, body) == Some((kind, data)) {
      var inner := Stripped(whole.value);
      assert inner == data + [kind];
      OpenSeal(f, keys.key, keys.Nonce(), header, whole.value, body);
      var n: nat := |whole.value| - |inner|;
      assert body == Sealed(f, keys.key, keys.Nonce(), header, data + [kind] + Zeros(n));
    }
    if kind != 0 {
      forall n: nat | body == Sealed(f, keys.key, keys.Nonce(), header, data + [kind] + Zeros(n))
        ensures Open(f, keys, header, body) == Some((kind, data))
      {
        OpenSeal(f, keys.key, keys.Nonce(), header, data + [kind] + Zeros(n), body);
        StrippedIs(data + [kind], n);
        assert (data + [kind])[..|data|] == data;
      }
    }
  }

  /** A sealed record opens to what it was made of exactly when its kind is not
      zero: a zero kind is taken for padding. */
  lemma OpenRecordBack(f: Cipher, keys: Keys, kind: byte, data: seq<byte>)
    ensures Open(f, keys, Header(|data| + 17), Body(f, keys, kind, data)) == Some((kind, data)) <==> kind != 0
  {
    hide Sealed, Keys.Nonce, Open;
    OpensTo(f, keys, Header(|data| + 17), Body(f, keys, kind, data), kind, data);
    assert data + [kind] + Zeros(0) == data + [kind];
  }

  /** A record of kind 0 that carries a 7, under any keys: it opens as an empty
      record of kind 7. */
  lemma ZeroKind(f: Cipher, keys: Keys)
    ensures Open(f, keys, Header(18), Body(f, keys, 0, [7])) == Some((7, []))
  {
    hide Sealed, Opened, Keys.Nonce;
    OpenSeal(f, keys.key, keys.Nonce(), Header(18), [7] + [0], Body(f, keys, 0, [7]));
    assert [7] + Zeros(1) == [7] + [0];
    StrippedIs([7], 1);
  }

  // ---- In step ----------------------------------------------------------------------------------

  type Item = (byte, seq<byte>)

  /** Records sealed one after the other. */
  function SealAll(f: Cipher, keys: Keys, items: seq<Item>): seq<seq<byte>>
    decreases |items|
  {
    if items == [] then []
    else [Record(f, keys, items[0].0, items[0].1)] + SealAll(f, keys.Next(), items[1..])
  }

  /** Records opened one after the other; None when one does not open. */
  function OpenAll(f: Cipher, keys: Keys, wire: seq<seq<byte>>): Option<seq<Item>>
    decreases |wire|
  {
    if wire == [] then Some([])
    else if |wire[0]| < 5 then None
    else
      match Open(f, keys, wire[0][..5], wire[0][5..])
      case None => None
      case Some(item) =>
        match OpenAll(f, keys.Next(), wire[1..])
        case None => None
        case Some(rest) => Some([item] + rest)
  }

  /** Both ends starting from equal keys, what is opened is what was sealed. */
  lemma {:induction false} InStep(f: Cipher, keys: Keys, items: seq<Item>)
    requires forall i | 0 <= i < |items| :: items[i].0 != 0
    ensures OpenAll(f, keys, SealAll(f, keys, items)) == Some(items)
    decreases |items|
  {
    hide Open, Body;
    if items != [] {
      var record := Record(f, keys, items[0].0, items[0].1);
      assert record[..5] == Header(|items[0].1| + 17) && record[5..] == Body(f, keys, items[0].0, items[0].1);
      OpenRecordBack(f, keys, items[0].0, items[0].1);
      InStep(f, keys.Next(), items[1..]);
      assert SealAll(f, keys, items)[1..] == SealAll(f, keys.Next(), items[1..]);
      assert items == [items[0]] + items[1..];
    }
  }

  // ---- The methods ------------------------------------------------------------------------------

  method SealRecord(f: Cipher, keys: Keys, kind: byte, data: seq<byte>) returns (out: seq<byte>, next: Keys)
    ensures out == Record(f, keys, kind, data) && next == keys.Next()
  {
    hide Sealed, Keys.Nonce;
    var plain := data + [kind];
    var inner := new byte[|plain|](i requires 0 <= i < |plain| => plain[i]);
    assert inner[..] == plain;
    var length := inner.Length + 16;
    var header := [RECORD_DATA, 3, 3, length / 256 % 256, length % 256];
    var nonce := keys.Nonce();
    next := keys.Next();
    var tag := ChaCha.Seal(f, keys.key, nonce, header, inner);
    out := header + inner[..] + tag;
    assert out == header + (inner[..] + tag);
  }

  /** The keys move on whether the record opens or not. */
  method OpenRecord(f: Cipher, keys: Keys, header: seq<byte>, body: seq<byte>) returns (r: Option<Item>, next: Keys)
    ensures r == Open(f, keys, header, body) && next == keys.Next()
  {
    hide Opened, Keys.Nonce, Stripped;
    var nonce := keys.Nonce();
    next := keys.Next();
    var whole := ChaCha.Open(f, keys.key, nonce, header, body);
    if whole == None {
      return None, next;
    }
    var plain := whole.value;
    while plain != [] && plain[|plain| - 1] == 0
      invariant Stripped(plain) == Stripped(whole.value)
    {
      StrippedStep(plain);
      plain := plain[..|plain| - 1];
    }
    StrippedStep(plain);
    if plain == [] {
      return None, next;
    }
    r := Some((plain[|plain| - 1], plain[..|plain| - 1]));
  }

  lemma StrippedStep(plain: seq<byte>)
    ensures Stripped(plain) == if plain == [] || plain[|plain| - 1] != 0 then plain else Stripped(plain[..|plain| - 1])
  {
  }
}
