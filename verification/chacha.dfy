/** The authenticator fed in pieces, and the AEAD of section 2.8 of RFC 8439;
    the ChaCha20 block function is a parameter. */
module ChaCha {
  import opened Base
  import opened Numbers
  import opened Streams
  import opened Poly1305s
  import opened PolyFinish

  // ---- Poly1305 in pieces -----------------------------------------------------------------------

  class Poly1305 {
    var r: Five
    var h: Five
    var pad: seq<nat>
    var buffer: array<byte>
    var held: nat
    ghost var key: seq<byte>
    /** Everything fed. */
    ghost var fed: seq<byte>

    ghost predicate Valid()
      reads this, buffer
    {
      && |key| == 32 && r == Limbs(key) && Clamped(r) && Held(h)
      && |pad| == 4 && (forall i | 0 <= i < 4 :: pad[i] == WordAt(key, 16 + 4 * i))
      && buffer.Length == 16 && held < 16 && buffer[..held] == Rest(fed, 16)
      && h.Value() % P == Fold<nat>(Step(r.Value()), 0, fed, 16)
    }

    constructor (k: seq<byte>)
      requires |k| == 32
      ensures Valid() && fresh(buffer) && key == k && fed == []
    {
      LimbsValue(k);
      r := Limbs(k);
      h := Five(0, 0, 0, 0, 0);
      pad := [WordAt(k, 16), WordAt(k, 20), WordAt(k, 24), WordAt(k, 28)];
      buffer := new byte[16](_ => 0);
      held := 0;
      key, fed := k, [];
      new;
      assert buffer[..0] == [];
    }

    /** Takes in more of the message. */
    method Update(data: seq<byte>)
      requires Valid()
      modifies this`h, this`held, this`fed, buffer
      ensures Valid() && fed == old(fed) + data
    {
      hide Fold, Rest, Limbs, Five.Value, Held, Clamped, Absorb, Settled, Sums, Added, WordAt;
      ghost var kept, step := buffer[..held], Step(r.Value());
      FoldOn<nat>(step, 0, fed, data, 16);
      fed := fed + data;
      var at := 0;
      if held > 0 {
        var take := if 16 - held < |data| then 16 - held else |data|;
        CopyIn(data[..take], held);
        held := held + take;
        at := take;
        assert buffer[..held] == kept + data[..take];
        if held < 16 {
          assert data[..take] == data;
          Short(kept + data);
          return;
        }
        assert kept + data == buffer[..] + data[at..];
        FoldBlock<nat>(step, h.Value() % P, buffer[..], data[at..], 16);
        BlockIs(h, r, buffer[..], h.Value() % P);
        h := Block(h, r, buffer[..], false);
        held := 0;
      } else {
        assert kept + data == data[0..];
      }
      at := TakeBlocks(data, at);
      Short(data[at..]);
      CopyIn(data[at..], 0);
      held := |data| - at;
      assert buffer[..held] == data[at..];
    }

    /** Every whole block from `from` on. */
    method TakeBlocks(data: seq<byte>, from: nat) returns (at: nat)
      requires from <= |data| && Held(h) && Clamped(r)
      modifies this`h
      ensures Held(h) && from <= at <= |data| < at + 16
      ensures Fold<nat>(Step(r.Value()), h.Value() % P, data[at..], 16) == old(Fold<nat>(Step(r.Value()),
              h.Value() % P, data[from..], 16))
      ensures Rest(data[at..], 16) == Rest(data[from..], 16)
    {
      hide Fold, Rest, Five.Value, Held, Clamped, Absorb, Settled, Sums, Added;
      at := from;
      while at + 16 <= |data|
        invariant from <= at <= |data| && Held(h)
        invariant Fold<nat>(Step(r.Value()), h.Value() % P, data[at..], 16) == old(Fold<nat>(Step(r.Value()),
                  h.Value() % P, data[from..], 16))
        invariant Rest(data[at..], 16) == Rest(data[from..], 16)
      {
        assert data[at..] == data[at..at + 16] + data[at + 16..];
        FoldBlock<nat>(Step(r.Value()), h.Value() % P, data[at..at + 16], data[at + 16..], 16);
        BlockIs(h, r, data[at..at + 16], h.Value() % P);
        h := Block(h, r, data[at..at + 16], false);
        at := at + 16;
      }
    }

    lemma Short(data: seq<byte>)
      requires |data| < 16
      ensures forall s :: Fold<nat>(Step(r.Value()), s, data, 16) == s
      ensures Rest(data, 16) == data
    {
    }

    /** Copies bytes into the buffer, from `at` on. */
    method CopyIn(data: seq<byte>, at: nat)
      requires buffer.Length == 16 && at + |data| <= 16
      modifies buffer
      ensures buffer[..] == old(buffer[..at]) + data + old(buffer[at + |data|..])
    {
      for i := 0 to |data|
        invariant buffer[..] == old(buffer[..at]) + data[..i] + old(buffer[at + i..])
      {
        buffer[at + i] := data[i];
      }
      assert data[..|data|] == data;
    }

    /** The last block, if anything is held: a one after it, then zeros. */
    method Close()
      requires Valid()
      modifies this`h, this`held, buffer
      ensures Held(h) && h.Value() % P == Polynomial(r.Value(), fed)
    {
      hide Fold, Limbs, Five.Value, Held, Clamped, Absorb, Settled, Sums, Added, WordAt, Rest;
      ghost var rest := buffer[..held];
      if held > 0 {
        buffer[held] := 1;
        for i := held + 1 to 16
          invariant buffer[..held] == rest && buffer[held] == 1 && forall k | held < k < i :: buffer[k] == 0
          modifies buffer
        {
          buffer[i] := 0;
        }
        assert buffer[..] == rest + [1] + Zeros(15 - held);
        LastIs(h, r, rest, buffer[..], h.Value() % P);
        h := Block(h, r, buffer[..], true);
      }
    }

    /** The tag: however the message was cut, that of RFC 8439. */
    method Finish() returns (tag: seq<byte>)
      requires Valid()
      modifies this`h, this`held, buffer
      ensures |tag| == 16 && Little(tag) == Tag(key, fed)
    {
      hide Fold, Limbs, Five.Value, Held, Clamped, Absorb, Polynomial, WordAt, Rest, Val8, Clamp;
      LimbsValue(key);
      Close();
      var n := Normalise(h);
      n := Choose(n);
      PolynomialSmall(r.Value(), fed);
      var out := Words(n);
      PadIs(key, pad);
      tag := AddPad(out, pad, key[16..]);
      TagIs(n.Value(), key, fed);
    }
  }

  lemma PadIs(key: seq<byte>, pad: seq<nat>)
    requires |key| == 32 && |pad| == 4 && forall i | 0 <= i < 4 :: pad[i] == WordAt(key, 16 + 4 * i)
    ensures forall i | 0 <= i < 4 :: pad[i] == WordAt(key[16..], 4 * i)
  {
    hide Word;
  }

  lemma PolynomialSmall(r: nat, message: seq<byte>)
    ensures Polynomial(r, message) < P
  {
    hide Absorb, Rest;
    FoldSmall(r, 0, message);
  }

  lemma {:induction false} FoldSmall(r: nat, s: nat, message: seq<byte>)
    requires s < P
    ensures Fold<nat>(Step(r), s, message, 16) < P
    decreases |message|
  {
    hide Absorb;
    if |message| >= 16 {
      FoldSmall(r, Absorb(r, s, message[..16]), message[16..]);
    }
  }

  lemma TagIs(n: nat, key: seq<byte>, message: seq<byte>)
    requires |key| == 32 && n == Polynomial(Little(Clamp(key)), message)
    ensures (n % POW128 + Little(key[16..])) % POW128 == Tag(key, message)
  {
    hide Polynomial, Val8, Clamp;
    ModSum(n, Little(key[16..]));
  }

  lemma ModSum(x: nat, y: nat)
    ensures (x % POW128 + y) % POW128 == (x + y) % POW128
  {
  }

  /** Sixteen bytes as the four words they make. */
  lemma FourWords(bytes: seq<byte>)
    requires |bytes| == 16
    ensures Little(bytes) == WordAt(bytes, 0) + 0x1_0000_0000 * WordAt(bytes,
            4) + 0x1_0000_0000_0000_0000 * WordAt(bytes, 8)
                             + 0x1_0000_0000_0000_0000_0000_0000 * WordAt(bytes, 12)
  {
    hide Val8;
    Sixteen(bytes);
  }

  lemma Le4Word(x: nat, a: seq<byte>, b: seq<byte>)
    requires x < 0x1_0000_0000
    ensures WordAt(a + Le4(x) + b, |a|) == x
  {
    var s := a + Le4(x) + b;
    assert s[|a|] == Le4(x)[0] && s[|a| + 1] == Le4(x)[1] && s[|a| + 2] == Le4(x)[2] && s[|a| + 3] == Le4(x)[3];
    WordLe4(x);
  }

  /** s added word by word, the last carry dropped. */
  method AddPad(out: seq<nat>, pad: seq<nat>, ghost s: seq<byte>) returns (tag: seq<byte>)
    requires |out| == |pad| == 4 && |s| == 16
    requires (forall i | 0 <= i < 4 :: out[i] < 0x1_0000_0000 && pad[i] == WordAt(s, 4 * i))
    ensures |tag| == 16
    ensures Little(tag) == (out[0] + 0x1_0000_0000 * out[1] + 0x1_0000_0000_0000_0000 * out[2] + 0x1_0000_0000_0000_0000_0000_0000 * out[3]
                            + Little(s)) % POW128
  {
    hide Val8, WordAt;
    FourWords(s);
    var w0, w1, w2, w3, carry;
    w0, carry := AddWord(out[0], pad[0], 0);
    w1, carry := AddWord(out[1], pad[1], carry);
    w2, carry := AddWord(out[2], pad[2], carry);
    w3, carry := AddWord(out[3], pad[3], carry);
    tag := Le4(w0) + Le4(w1) + Le4(w2) + Le4(w3);
    assert tag == [] + Le4(w0) + (Le4(w1) + Le4(w2) + Le4(w3));
    assert tag == Le4(w0) + Le4(w1) + (Le4(w2) + Le4(w3));
    assert tag == Le4(w0) + Le4(w1) + Le4(w2) + Le4(w3) + [];
    Le4Word(w0, [], Le4(w1) + Le4(w2) + Le4(w3));
    Le4Word(w1, Le4(w0), Le4(w2) + Le4(w3));
    Le4Word(w2, Le4(w0) + Le4(w1), Le4(w3));
    Le4Word(w3, Le4(w0) + Le4(w1) + Le4(w2), []);
    FourWords(tag);
    Dropped(w0, w1, w2, w3, carry);
  }

  method AddWord(x: nat, y: nat, carry: nat) returns (word: nat, next: nat)
    requires x < 0x1_0000_0000 && y < 0x1_0000_0000 && carry <= 1
    ensures x + y + carry == word + 0x1_0000_0000 * next && word < 0x1_0000_0000 && next <= 1
  {
    var sum := U64(x + y + carry);
    next := sum / 0x1_0000_0000;
    word := sum % 0x1_0000_0000;
  }

  lemma Dropped(w0: nat, w1: nat, w2: nat, w3: nat, carry: nat)
    requires w0 < 0x1_0000_0000 && w1 < 0x1_0000_0000 && w2 < 0x1_0000_0000 && w3 < 0x1_0000_0000
    ensures var low := w0 + 0x1_0000_0000 * w1 + 0x1_0000_0000_0000_0000 * w2 + 0x1_0000_0000_0000_0000_0000_0000 * w3;
            (low + POW128 * carry) % POW128 == low
  {
  }

  // ---- The cipher -------------------------------------------------------------------------------

  type Block64 = s: seq<byte> | |s| == 64 witness seq(64, _ => 0)
  /** The block function: key, counter, nonce. */
  type Cipher = (seq<byte>, nat, seq<byte>) -> Block64

  function XorByte(a: byte, b: byte): byte {
    Pow2At8();
    XorNat(a, b, 8);
    Xor(a, b)
  }

  lemma XorByteBack(a: byte, b: byte)
    ensures XorByte(XorByte(a, b), b) == a
  {
    hide Xor;
    XorBack(a, b);
    XorSame(a, b);
    XorSame(Xor(a, b), b);
  }

  /** The key stream over `data`, from block `counter` on. */
  function Applied(f: Cipher, key: seq<byte>, counter: nat, nonce: seq<byte>, data: seq<byte>): (r: seq<byte>)
    ensures |r| == |data|
  {
    seq(|data|, i requires 0 <= i < |data| => XorByte(data[i], f(key, (counter + i / 64) % 0x1_0000_0000,
        nonce)[i % 64]))
  }

  /** Applied twice, the key stream is gone. */
  lemma AppliedTwice(f: Cipher, key: seq<byte>, counter: nat, nonce: seq<byte>, data: seq<byte>)
    ensures Applied(f, key, counter, nonce, Applied(f, key, counter, nonce, data)) == data
  {
    hide XorByte;
    forall i | 0 <= i < |data|
      ensures Applied(f, key, counter, nonce, Applied(f, key, counter, nonce, data))[i] == data[i]
    {
      XorByteBack(data[i], f(key, (counter + i / 64) % 0x1_0000_0000, nonce)[i % 64]);
    }
  }

  /** The array ends up as `Applied` of what it held, block by block. */
  method Apply(f: Cipher, key: seq<byte>, counter: nat, nonce: seq<byte>, data: array<byte>)
    modifies data
    ensures data[..] == Applied(f, key, counter, nonce, old(data[..]))
  {
    hide XorByte, Applied;
    ghost var before := data[..];
    ghost var after := Applied(f, key, counter, nonce, before);
    var at, index := 0, 0;
    while at < data.Length
      invariant at == 64 * index && forall k | 0 <= k < data.Length :: data[k] == if k < at then after[k] else before[k]
    {
      var stream := f(key, (counter + index) % 0x1_0000_0000, nonce);
      var to := if at + 64 < data.Length then at + 64 else data.Length;
      for i := at to to
        invariant forall k | 0 <= k < data.Length :: data[k] == if k < i then after[k] else before[k]
      {
        AppliedAt(f, key, counter, nonce, before, i, index);
        data[i] := XorByte(data[i], stream[i - at]);
      }
      at, index := at + 64, index + 1;
    }
    assert data[..] == after;
  }

  lemma AppliedAt(f: Cipher, key: seq<byte>, counter: nat, nonce: seq<byte>, data: seq<byte>, i: nat, index: nat)
    requires i < |data| && 64 * index <= i < 64 * index + 64
    ensures Applied(f, key, counter, nonce, data)[i] == XorByte(data[i], f(key, (counter + index) % 0x1_0000_0000,
            nonce)[i - 64 * index])
  {
    hide XorByte;
    assert i / 64 == index && i % 64 == i - 64 * index;
  }

  // ---- The AEAD ---------------------------------------------------------------------------------

  /** Zeros up to a multiple of sixteen. */
  function Pad16(n: nat): seq<byte> {
    Zeros((16 - n % 16) % 16)
  }

  /** What is authenticated, section 2.8. */
  function MacData(aad: seq<byte>, ciphertext: seq<byte>): seq<byte> {
    aad + Pad16(|aad|) + ciphertext + Pad16(|ciphertext|) + Le8(|aad|) + Le8(|ciphertext|)
  }

  function Le8(n: nat): (r: seq<byte>)
    ensures |r| == 8
  {
    Le4(n % 0x1_0000_0000_0000_0000 % 0x1_0000_0000) + Le4(n % 0x1_0000_0000_0000_0000 / 0x1_0000_0000)
  }

  /** The lowest sixteen bytes of a number. */
  function SixteenBytes(n: nat, k: nat): (r: seq<byte>)
    ensures |r| == k
  {
    if k == 0 then [] else [n % 256] + SixteenBytes(n / 256, k - 1)
  }

  lemma {:induction false} SixteenIs(bytes: seq<byte>)
    ensures Val8(bytes) >= 0 && bytes == SixteenBytes(Val8(bytes), |bytes|)
  {
    Val8Range(bytes);
    if bytes != [] {
      SixteenIs(bytes[1..]);
      assert bytes == [bytes[0]] + bytes[1..];
    }
  }

  /** The one-time key: the first half of block 0. */
  function OneTime(f: Cipher, key: seq<byte>, nonce: seq<byte>): (r: seq<byte>)
    ensures |r| == 32
  {
    f(key, 0, nonce)[..32]
  }

  function AeadTag(f: Cipher, key: seq<byte>, nonce: seq<byte>, aad: seq<byte>, ciphertext: seq<byte>): (r: seq<byte>)
    ensures |r| == 16
  {
    SixteenBytes(Tag(OneTime(f, key, nonce), MacData(aad, ciphertext)), 16)
  }

  /** A sealed message: the ciphertext, then its tag. */
  function Sealed(f: Cipher, key: seq<byte>, nonce: seq<byte>, aad: seq<byte>, plain: seq<byte>): (r: seq<byte>)
    ensures |r| == |plain| + 16
  {
    var ciphertext := Applied(f, key, 1, nonce, plain);
    ciphertext + AeadTag(f, key, nonce, aad, ciphertext)
  }

  /** Opened: None exactly when the tag is not that of section 2.8. */
  function Opened(f: Cipher, key: seq<byte>, nonce: seq<byte>, aad: seq<byte>, data: seq<byte>): Option<seq<byte>> {
    if |data| < 16 || data[|data| - 16..] != AeadTag(f, key, nonce, aad, data[..|data| - 16]) then None
    else Some(Applied(f, key, 1, nonce, data[..|data| - 16]))
  }

  /** Opening undoes sealing, and nothing else opens to the same with other
      bytes: what opens is what sealing makes of the plain text. */
  lemma OpenSeal(f: Cipher, key: seq<byte>, nonce: seq<byte>, aad: seq<byte>, plain: seq<byte>, data: seq<byte>)
    ensures Opened(f, key, nonce, aad, data) == Some(plain) <==> data == Sealed(f, key, nonce, aad, plain)
  {
    hide Applied, AeadTag;
    AppliedTwice(f, key, 1, nonce, plain);
    if |data| >= 16 {
      var ciphertext := data[..|data| - 16];
      assert data == ciphertext + data[|data| - 16..];
      AppliedTwice(f, key, 1, nonce, ciphertext);
    }
    var sealed := Sealed(f, key, nonce, aad, plain);
    assert sealed[..|sealed| - 16] == Applied(f, key, 1, nonce, plain);
    assert sealed[|sealed| - 16..] == AeadTag(f, key, nonce, aad, Applied(f, key, 1, nonce, plain));
  }

  lemma Ends(a: seq<byte>, b: seq<byte>, c: seq<byte>, d: seq<byte>, e: seq<byte>, f: seq<byte>)
    ensures [] + a + b + c + d + (e + f) == a + b + c + d + e + f
  {
    assert [] + a == a;
  }

  /** What comes out of the authenticator fed the four pieces of `MacData` is their tag. */
  method ComputeTag(key: seq<byte>, aad: seq<byte>, ciphertext: seq<byte>) returns (tag: seq<byte>)
    requires |key| == 32
    ensures tag == SixteenBytes(Tag(key, MacData(aad, ciphertext)), 16)
  {
    hide Tag, SixteenBytes, Val8, Pad16, Le8, Fold, Rest, Limbs, Poly1305.Valid;
    var poly := new Poly1305(key);
    poly.Update(aad);
    poly.Update(Pad16(|aad|));
    poly.Update(ciphertext);
    poly.Update(Pad16(|ciphertext|));
    var lengths := Le8(|aad|) + Le8(|ciphertext|);
    poly.Update(lengths);
    Ends(aad, Pad16(|aad|), ciphertext, Pad16(|ciphertext|), Le8(|aad|), Le8(|ciphertext|));
    tag := poly.Finish();
    SixteenIs(tag);
  }

  /** What is left in the array, then the tag, is the sealed message. */
  method Seal(f: Cipher, key: seq<byte>, nonce: seq<byte>, aad: seq<byte>, data: array<byte>) returns (tag: seq<byte>)
    modifies data
    ensures data[..] + tag == Sealed(f, key, nonce, aad, old(data[..]))
  {
    hide Applied, Tag, SixteenBytes, MacData;
    var polyKey := OneTime(f, key, nonce);
    Apply(f, key, 1, nonce, data);
    tag := ComputeTag(polyKey, aad, data[..]);
  }

  /** Whether two tags are the same, looking at every byte. */
  method SameTag(a: seq<byte>, b: seq<byte>) returns (equal: bool)
    requires |a| == |b|
    ensures equal <==> a == b
  {
    hide Or, Xor;
    var same: nat := 0;
    for i := 0 to |a|
      invariant same == 0 <==> a[..i] == b[..i]
    {
      Pow2At8();
      XorNat(a[i], b[i], 8);
      OrNone(same, XorByte(a[i], b[i]));
      assert a[..i + 1] == a[..i] + [a[i]] && b[..i + 1] == b[..i] + [b[i]];
      same := Or(same, XorByte(a[i], b[i]));
    }
    assert a[..|a|] == a && b[..|b|] == b;
    equal := same == 0;
  }

  /** As `Opened` says: None unless the tag is the right one. */
  method Open(f: Cipher, key: seq<byte>, nonce: seq<byte>, aad: seq<byte>, data: seq<byte>)
    returns (r: Option<seq<byte>>)
    ensures r == Opened(f, key, nonce, aad, data)
  {
    hide Applied, Tag, SixteenBytes, MacData;
    if |data| < 16 {
      return None;
    }
    var ciphertext, given := data[..|data| - 16], data[|data| - 16..];
    var polyKey := OneTime(f, key, nonce);
    var expected := ComputeTag(polyKey, aad, ciphertext);
    var same := SameTag(expected, given);
    if !same {
      return None;
    }
    var plain := new byte[|ciphertext|](i requires 0 <= i < |ciphertext| => ciphertext[i]);
    assert plain[..] == ciphertext;
    Apply(f, key, 1, nonce, plain);
    r := Some(plain[..]);
  }
}
