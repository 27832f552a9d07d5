/** What is sealed, and under which nonce, byte by byte: section 2.8 of RFC 8439
    and section 5.3 of RFC 8446. */
module AeadFormats {
  import opened Base
  import opened Numbers
  import opened Streams
  import opened Poly1305s
  import opened ChaCha
  import opened TlsRecords
  import HashFormats

  /** Bit `i` of an exclusive or is set when one of the two bits is. */
  lemma XorBits(a: byte, b: byte, i: nat)
    ensures BitOf(XorByte(a, b), i) == (BitOf(a, i) + BitOf(b, i)) % 2
  {
    hide Xor;
    XorBit(a, b, i);
  }

  lemma {:induction false} XorBit(x: nat, y: nat, i: nat)
    ensures Xor(x, y) >= 0 && BitOf(Xor(x, y), i) == (BitOf(x, i) + BitOf(y, i)) % 2
    decreases i
  {
    XorNotNegative(x, y);
    XorHalf(x, y);
    if i > 0 {
      XorBit(x / 2, y / 2, i - 1);
    }
  }

  lemma {:induction false} XorNotNegative(x: nat, y: nat)
    ensures Xor(x, y) >= 0
    decreases x + y
  {
    if x > 0 || y > 0 {
      XorNotNegative(x / 2, y / 2);
    }
  }

  /** The bits of a number are its digits to the base of two. */
  lemma {:induction false} BitIs(x: nat, i: nat)
    ensures BitOf(x, i) == x / Pow2(i) % 2
  {
    if i > 0 {
      BitIs(x / 2, i - 1);
      HalfDiv(x, Pow2(i - 1));
    } else {
      assert Pow2(0) == 1;
    }
  }

  lemma HalfDiv(x: nat, w: nat)
    requires w > 0
    ensures x / 2 / w == x / (2 * w)
  {
    var q, r := x / 2, x % 2;
    var a, b := q / w, q % w;
    assert x == 2 * (w * a + b) + r;
    assert 2 * (w * a) == 2 * w * a;
    DivIs(x, 2 * w, a, 2 * b + r);
  }

  /** The nonce of a record: its number on twelve bytes, highest first, folded into
      the base byte by byte. */
  lemma NonceBytes(keys: Keys, i: nat)
    requires i < 12 && keys.sequence < 0x1_0000_0000_0000_0000
    ensures keys.Nonce()[i] == XorByte(keys.iv[i], keys.sequence / W8(11 - i) % 256)
  {
    hide XorByte, BigEndian, W8;
    if i < 4 {
      W8Large(11 - i, keys.sequence);
      XorNone(keys.iv[i]);
    } else {
      HashFormats.BigEndianAt(keys.sequence, 8, i - 4);
    }
  }

  lemma XorNone(a: byte)
    ensures XorByte(a, 0) == a
  {
    XorZero(a);
  }

  lemma {:induction false} XorZero(x: nat)
    ensures Xor(x, 0) == x
  {
    if x > 0 {
      XorZero(x / 2);
    }
  }

  lemma W8Large(n: nat, x: nat)
    requires 8 <= n <= 11 && x < 0x1_0000_0000_0000_0000
    ensures x / W8(n) % 256 == 0
  {
    hide W8;
    W8At8();
    W8Sum(8, n - 8);
    LargeDiv(x, WRAP, W8(n - 8));
  }

  lemma LargeDiv(x: nat, m: nat, k: nat)
    requires x < m && k > 0
    ensures m * k > 0 && x / (m * k) == 0
  {
    assert m * k >= m;
  }

  /** A sealed message: the plain text under the key stream from block 1 on, then
      the tag under the first half of block 0. */
  lemma SealedBytes(f: Cipher, key: seq<byte>, nonce: seq<byte>, aad: seq<byte>, plain: seq<byte>)
    ensures var r, n := Sealed(f, key, nonce, aad, plain), |plain|;
            && |r| == n + 16
            && (forall i | 0 <= i < n :: r[i] == XorByte(plain[i], f(key, (1 + i / 64) % 0x1_0000_0000, nonce)[i % 64]))
            && r[n..] == SixteenBytes(Tag(f(key, 0, nonce)[..32], MacData(aad, r[..n])), 16)
  {
    hide XorByte, MacData, Tag, SixteenBytes;
    var ciphertext := Applied(f, key, 1, nonce, plain);
    assert Sealed(f, key, nonce, aad, plain)[..|plain|] == ciphertext;
  }

  /** What is authenticated: the additional data and the ciphertext, each with zeros
      up to sixteen bytes, then both lengths on eight bytes, lowest first. */
  lemma MacDataBytes(aad: seq<byte>, ciphertext: seq<byte>)
    ensures var d, a, n := MacData(aad, ciphertext), |aad|, |ciphertext|;
            var b := (a + 15) / 16 * 16;
            var e := b + (n + 15) / 16 * 16;
            && |d| == e + 16
            && d[..a] == aad && (forall i | a <= i < b :: d[i] == 0)
            && d[b..b + n] == ciphertext && (forall i | b + n <= i < e :: d[i] == 0)
            && d[e..e + 8] == LowFirst(a, 8) && d[e + 8..] == LowFirst(n, 8)
  {
    hide Le8, LowFirst;
    var d, a, n := MacData(aad, ciphertext), |aad|, |ciphertext|;
    var b := (a + 15) / 16 * 16;
    var e := b + (n + 15) / 16 * 16;
    PadSize(a);
    PadSize(n);
    assert |aad + Pad16(a)| == b && |aad + Pad16(a) + ciphertext + Pad16(n)| == e;
    Le8Is(a);
    Le8Is(n);
  }

  /** `n` bytes of a number, lowest first. */
  function LowFirst(x: nat, n: nat): (r: seq<byte>)
    ensures |r| == n
  {
    if n == 0 then [] else [x % 256] + LowFirst(x / 256, n - 1)
  }

  lemma Le8Is(n: nat)
    ensures Le8(n) == LowFirst(n, 8)
  {
    var m := n % 0x1_0000_0000_0000_0000;
    var q, r := m / 0x1_0000_0000, m % 0x1_0000_0000;
    Le4Low(r);
    Le4Low(q);
    LowSplit(n);
  }

  lemma Le4Low(x: nat)
    requires x < 0x1_0000_0000
    ensures Le4(x) == LowFirst(x, 4)
  {
    var y := x / 256;
    var z := y / 256;
    assert LowFirst(z / 256, 1) == [z / 256 % 256] + LowFirst(z / 256 / 256, 0);
    assert LowFirst(z, 2) == [z % 256] + LowFirst(z / 256, 1);
    assert LowFirst(y, 3) == [y % 256] + LowFirst(z, 2);
    assert LowFirst(x, 4) == [x % 256] + LowFirst(y, 3);
    Quarters(x);
  }

  lemma Quarters(x: nat)
    ensures x / 0x1_0000 == x / 256 / 256 && x / 0x100_0000 == x / 256 / 256 / 256
  {
  }

  lemma PadSize(n: nat)
    ensures n + |Pad16(n)| == (n + 15) / 16 * 16
  {
  }

  /** The eight lowest bytes, four and four. */
  lemma LowSplit(n: nat)
    ensures var m := n % 0x1_0000_0000_0000_0000;
            LowFirst(n, 8) == LowFirst(m % 0x1_0000_0000, 4) + LowFirst(m / 0x1_0000_0000, 4)
  {
    hide LowFirst;
    var m := n % 0x1_0000_0000_0000_0000;
    W8At4();
    LowEight(n);
    LowMod(n, 4);
    LowMod(n / 0x1_0000_0000, 4);
    Halves64(n);
  }

  lemma W8At4()
    ensures W8(4) == 0x1_0000_0000
  {
    assert W8(1) == 0x100 * W8(0);
    assert W8(2) == 0x100 * W8(1);
    assert W8(3) == 0x100 * W8(2);
  }

  lemma Halves64(n: nat)
    ensures var m := n % 0x1_0000_0000_0000_0000;
            && m % 0x1_0000_0000 == n % 0x1_0000_0000
            && m / 0x1_0000_0000 == n / 0x1_0000_0000 % 0x1_0000_0000
  {
    var q, r := n / 0x1_0000_0000, n % 0x1_0000_0000;
    var h, l := q / 0x1_0000_0000, q % 0x1_0000_0000;
    DivIs(n, 0x1_0000_0000_0000_0000, h, 0x1_0000_0000 * l + r);
    DivIs(0x1_0000_0000 * l + r, 0x1_0000_0000, l, r);
  }

  lemma LowEight(x: nat)
    ensures LowFirst(x, 8) == LowFirst(x, 4) + LowFirst(x / 0x1_0000_0000, 4)
  {
    LowStep(x, 4);
    LowStep(x / 256, 3);
    LowStep(x / 256 / 256, 2);
    LowStep(x / 256 / 256 / 256, 1);
    assert LowFirst(x / 256 / 256 / 256 / 256, 0) == [];
    assert x / 0x1_0000_0000 == x / 256 / 256 / 256 / 256;
    LowStep(x, 8);
    LowStep(x / 256, 7);
    LowStep(x / 256 / 256, 6);
    LowStep(x / 256 / 256 / 256, 5);
  }

  lemma LowStep(x: nat, n: nat)
    requires n > 0
    ensures LowFirst(x, n) == [x % 256] + LowFirst(x / 256, n - 1)
  {
  }

  /** The low bytes do not see the higher ones. */
  lemma {:induction false} LowMod(x: nat, n: nat)
    ensures LowFirst(x % W8(n), n) == LowFirst(x, n)
  {
    if n > 0 {
      ModDown(x, W8(n - 1));
      LowMod(x / 256, n - 1);
    }
  }

  lemma ModDown(x: nat, w: nat)
    requires w > 0
    ensures x % (256 * w) % 256 == x % 256 && x % (256 * w) / 256 == x / 256 % w
  {
    var q, r := x / 256, x % 256;
    var a, b := q / w, q % w;
    assert x == 256 * (w * a + b) + r;
    assert 256 * (w * a) == 256 * w * a;
    DivIs(x, 256 * w, a, 256 * b + r);
  }
}
