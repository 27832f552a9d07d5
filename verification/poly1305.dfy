/** Poly1305 in five limbs of 26 bits against section 2.5 of RFC 8439. */
module Poly1305s {
  import opened Base
  import opened Numbers
  import opened Streams

  /** 2^130 - 5. */
  const P: nat := 0x3_ffff_ffff_ffff_ffff_ffff_ffff_ffff_fffb
  const POW128: nat := 0x1_0000_0000_0000_0000_0000_0000_0000_0000
  const POW130: nat := 0x4_0000_0000_0000_0000_0000_0000_0000_0000
  /** Powers of 2^26, the weights of the limbs. */
  const B1: nat := 0x400_0000
  const B2: nat := 0x10_0000_0000_0000
  const B3: nat := 0x4000_0000_0000_0000_0000
  const B4: nat := 0x100_0000_0000_0000_0000_0000_0000

  // ---- Section 2.5 of RFC 8439 ------------------------------------------------------------------

  function Little(bytes: seq<byte>): (r: nat) {
    Val8Range(bytes);
    Val8(bytes)
  }

  /** A byte of r with the bits the RFC requires clear. */
  function ClampByte(i: nat, b: byte): byte {
    if i % 4 == 3 then b % 16 else if i % 4 == 0 && i > 0 then b - b % 4 else b
  }

  function Clamp(key: seq<byte>): (r: seq<byte>)
    requires |key| == 32
    ensures |r| == 16
  {
    seq(16, i requires 0 <= i < 16 => ClampByte(i, key[i]))
  }

  /** One block: added with a one after it, times r, modulo p. */
  function Absorb(r: nat, acc: nat, block: seq<byte>): (a: nat)
    ensures a < P
  {
    (acc + Little(block + [1])) * r % P
  }

  function Step(r: nat): (nat, seq<byte>) -> nat {
    (acc: nat, block: seq<byte>) => Absorb(r, acc, block)
  }

  function Polynomial(r: nat, message: seq<byte>): nat {
    var acc := Fold<nat>(Step(r), 0, message, 16);
    var rest := Rest(message, 16);
    if rest == [] then acc else Absorb(r, acc, rest)
  }

  /** The tag: the polynomial, plus s, modulo 2^128. */
  function Tag(key: seq<byte>, message: seq<byte>): nat
    requires |key| == 32
  {
    (Polynomial(Little(Clamp(key)), message) + Little(key[16..])) % POW128
  }

  // ---- Words ------------------------------------------------------------------------------------

  /** The result of an operation on 32-bit words, or 64-bit ones, which must not
      overflow. */
  function U32(x: int): (r: nat)
    requires 0 <= x < 0x1_0000_0000
    ensures r == x
  {
    x
  }

  function U64(x: int): (r: nat)
    requires 0 <= x < 0x1_0000_0000_0000_0000
    ensures r == x
  {
    x
  }

  /** The little-endian word at a place. */
  function WordAt(bytes: seq<byte>, at: nat): (r: nat)
    requires at + 4 <= |bytes|
    ensures r < 0x1_0000_0000
  {
    Word(bytes[at], bytes[at + 1], bytes[at + 2], bytes[at + 3])
  }

  datatype Five = Five(a: nat, b: nat, c: nat, d: nat, e: nat)
  {
    function Value(): nat {
      a + B1 * b + B2 * c + B3 * d + B4 * e
    }

    predicate Below(limit: nat) {
      a < limit && b < limit && c < limit && d < limit && e < limit
    }
  }

  /** The accumulator between blocks: only the second limb may be over its 26
      bits, and by little. */
  predicate Held(h: Five) {
    h.a < B1 && h.b < B1 + 64 && h.c < B1 && h.d < B1 && h.e < B1
  }

  // ---- Bytes into limbs -------------------------------------------------------------------------

  /** 16 bytes cut every 26 bits. */
  function Cut(c: seq<byte>): Five
    requires |c| == 16
  {
    Five(WordAt(c, 0) % B1, WordAt(c, 3) / 4 % B1, WordAt(c, 6) / 16 % B1, WordAt(c, 9) / 64 % B1, WordAt(c, 12) / 256)
  }

  /** A number as 16 bytes, spelled out. */
  lemma Sixteen(c: seq<int>)
    requires |c| == 16
    ensures Val8(c) == c[0] + 0x100 * c[1] + 0x1_0000 * c[2] + 0x100_0000 * c[3] + 0x1_0000_0000 * c[4] + 0x100_0000_0000 * c[5]
                       + 0x1_0000_0000_0000 * c[6] + 0x100_0000_0000_0000 * c[7] + 0x1_0000_0000_0000_0000 * c[8]
                       + 0x100_0000_0000_0000_0000 * c[9] + 0x1_0000_0000_0000_0000_0000 * c[10] + 0x100_0000_0000_0000_0000_0000 * c[11]
                       + 0x1_0000_0000_0000_0000_0000_0000 * c[12] + 0x100_0000_0000_0000_0000_0000_0000 * c[13]
                       + 0x1_0000_0000_0000_0000_0000_0000_0000 * c[14] + 0x100_0000_0000_0000_0000_0000_0000_0000 * c[15]
  {
    Eight(c);
    Eight(c[8..]);
  }

  lemma Eight(c: seq<int>)
    requires |c| >= 8
    ensures Val8(c) == c[0] + 0x100 * c[1] + 0x1_0000 * c[2] + 0x100_0000 * c[3] + 0x1_0000_0000 * c[4] + 0x100_0000_0000 * c[5]
                       + 0x1_0000_0000_0000 * c[6] + 0x100_0000_0000_0000 * c[7] + 0x1_0000_0000_0000_0000 * Val8(c[8..])
    ensures |c| == 8 ==> Val8(c[8..]) == 0
  {
    Quarter(c);
    Quarter(c[4..]);
    assert c[4..][4..] == c[8..];
  }

  lemma Quarter(c: seq<int>)
    requires |c| >= 4
    ensures Val8(c) == c[0] + 0x100 * c[1] + 0x1_0000 * c[2] + 0x100_0000 * c[3] + 0x1_0000_0000 * Val8(c[4..])
  {
    assert c[1..][1..] == c[2..] && c[2..][1..] == c[3..] && c[3..][1..] == c[4..];
    assert Val8(c[1..]) == c[1] + 0x100 * Val8(c[2..]);
    assert Val8(c[2..]) == c[2] + 0x100 * Val8(c[3..]);
    assert Val8(c[3..]) == c[3] + 0x100 * Val8(c[4..]);
  }

  predicate Bytes4(a: nat, b: nat, c: nat, d: nat) {
    a < 0x100 && b < 0x100 && c < 0x100 && d < 0x100
  }

  /** What each limb takes of its word: whole bytes, and the parts of two. */
  lemma Cut0(a: nat, b: nat, c: nat, d: nat)
    requires Bytes4(a, b, c, d)
    ensures Word(a, b, c, d) % B1 == a + 0x100 * b + 0x1_0000 * c + 0x100_0000 * (d % 4)
  {
    DivIs(Word(a, b, c, d), B1, d / 4, a + 0x100 * b + 0x1_0000 * c + 0x100_0000 * (d % 4));
  }

  lemma Cut3(a: nat, b: nat, c: nat, d: nat)
    requires Bytes4(a, b, c, d)
    ensures Word(a, b, c, d) / 4 % B1 == a / 4 + 0x40 * b + 0x4000 * c + 0x40_0000 * (d % 16)
  {
    DivIs(Word(a, b, c, d), 4, a / 4 + 0x40 * b + 0x4000 * c + 0x40_0000 * d, a % 4);
    DivIs(a / 4 + 0x40 * b + 0x4000 * c + 0x40_0000 * d, B1, d / 16,
        a / 4 + 0x40 * b + 0x4000 * c + 0x40_0000 * (d % 16));
  }

  lemma Cut6(a: nat, b: nat, c: nat, d: nat)
    requires Bytes4(a, b, c, d)
    ensures Word(a, b, c, d) / 16 % B1 == a / 16 + 0x10 * b + 0x1000 * c + 0x10_0000 * (d % 64)
  {
    DivIs(Word(a, b, c, d), 16, a / 16 + 0x10 * b + 0x1000 * c + 0x10_0000 * d, a % 16);
    DivIs(a / 16 + 0x10 * b + 0x1000 * c + 0x10_0000 * d, B1, d / 64,
        a / 16 + 0x10 * b + 0x1000 * c + 0x10_0000 * (d % 64));
  }

  lemma Cut9(a: nat, b: nat, c: nat, d: nat)
    requires Bytes4(a, b, c, d)
    ensures Word(a, b, c, d) / 64 % B1 == a / 64 + 4 * b + 0x400 * c + 0x4_0000 * d
  {
    DivIs(Word(a, b, c, d), 64, a / 64 + 4 * b + 0x400 * c + 0x4_0000 * d, a % 64);
    DivIs(a / 64 + 4 * b + 0x400 * c + 0x4_0000 * d, B1, 0, a / 64 + 4 * b + 0x400 * c + 0x4_0000 * d);
  }

  lemma Cut12(a: nat, b: nat, c: nat, d: nat)
    requires Bytes4(a, b, c, d)
    ensures Word(a, b, c, d) / 256 == b + 0x100 * c + 0x1_0000 * d
  {
    DivIs(Word(a, b, c, d), 256, b + 0x100 * c + 0x1_0000 * d, a);
  }

  /** Cut every 26 bits, the number is the same. */
  lemma CutValue(c: seq<byte>)
    requires |c| == 16
    ensures Cut(c).Value() == Val8(c) && Cut(c).Below(B1) && Cut(c).e < 0x100_0000
  {
    hide Val8, Word;
    Sixteen(c);
    Cut0(c[0], c[1], c[2], c[3]);
    Cut3(c[3], c[4], c[5], c[6]);
    Cut6(c[6], c[7], c[8], c[9]);
    Cut9(c[9], c[10], c[11], c[12]);
    Cut12(c[12], c[13], c[14], c[15]);
    Parts(c[3], 4);
    Parts(c[6], 16);
    Parts(c[9], 64);
  }

  lemma Parts(b: byte, m: nat)
    requires m == 4 || m == 16 || m == 64
    ensures b == m * (b / m) + b % m
  {
  }

  // ---- The key ----------------------------------------------------------------------------------

  lemma Pow2s()
    ensures Pow2(2) == 4 && Pow2(6) == 0x40 && Pow2(8) == 0x100 && Pow2(12) == 0x1000 && Pow2(14) == 0x4000
    ensures Pow2(18) == 0x4_0000 && Pow2(20) == 0x10_0000 && Pow2(26) == B1 && Pow2(32) == 0x1_0000_0000
  {
    Pow2Of1();
    hide Pow2;
    Pow2Sum(1, 1);
    Pow2Sum(2, 2);
    Pow2Sum(4, 2);
    Pow2Sum(6, 2);
    Pow2Sum(6, 6);
    Pow2Sum(12, 2);
    Pow2Sum(12, 6);
    Pow2Sum(12, 8);
    Pow2Sum(12, 14);
    Pow2Sum(26, 6);
  }

  lemma And3(x: nat)
    ensures And(x, 0x3ff_ff03) == x % 4 + 0x100 * (x / 0x100 % 0x4_0000)
  {
    hide And, Low, Shift;
    Pow2s();
    AndFields(x, 2, 8, 18);
    LowIs(x, 2);
    LowIs(x, 8);
    LowIs(x / 256, 18);
  }

  /** The masks of the limbs of r keep what clamping keeps. */
  lemma Mask3(a: nat, b: nat, c: nat, d: nat)
    requires Bytes4(a, b, c, d)
    ensures And(Word(a, b, c, d) / 4, 0x3ff_ff03) == a % 16 / 4 + 0x40 * (b - b % 4) + 0x4000 * c + 0x40_0000 * (d % 16)
  {
    hide And;
    var x, q := a / 4 + 0x40 * b + 0x4000 * c + 0x40_0000 * d, b / 4 + 0x40 * c + 0x4000 * d;
    DivIs(Word(a, b, c, d), 4, x, a % 4);
    And3(x);
    Shape3(a, b, c, d, x, q);
  }

  lemma Shape3(a: nat, b: nat, c: nat, d: nat, x: nat, q: nat)
    requires Bytes4(a, b, c, d) && x == a / 4 + 0x40 * b + 0x4000 * c + 0x40_0000 * d
    requires q == b / 4 + 0x40 * c + 0x4000 * d
    ensures x % 4 == a % 16 / 4 && x / 0x100 == q && q % 0x4_0000 == b / 4 + 0x40 * c + 0x4000 * (d % 16)
  {
    QuarterOf(a);
    DivIs(x, 4, a / 16 + 0x10 * b + 0x1000 * c + 0x10_0000 * d, a / 4 % 4);
    DivIs(x, 0x100, q, a / 4 + 0x40 * (b % 4));
    DivIs(q, 0x4_0000, d / 16, b / 4 + 0x40 * c + 0x4000 * (d % 16));
  }

  lemma QuarterOf(a: nat)
    ensures a / 4 == 4 * (a / 16) + a / 4 % 4 && a % 16 / 4 == a / 4 % 4
  {
  }

  lemma Mask6(a: nat, b: nat, c: nat, d: nat)
    requires Bytes4(a, b, c, d)
    ensures And(Word(a, b, c, d) / 16,
            0x3ff_c0ff) == a / 16 + 0x10 * (b % 16) + 0x1000 * (c - c % 4) + 0x10_0000 * (d % 64)
  {
    hide And, Low, Shift;
    var x := a / 16 + 0x10 * b + 0x1000 * c + 0x10_0000 * d;
    DivIs(Word(a, b, c, d), 16, x, a % 16);
    Pow2s();
    AndFields(x, 8, 14, 12);
    LowIs(x, 8);
    LowIs(x, 14);
    LowIs(x / 0x4000, 12);
    DivIs(x, 256, b / 16 + 0x10 * c + 0x1000 * d, a / 16 + 0x10 * (b % 16));
    DivIs(x, 0x4000, c / 4 + 0x40 * d, a / 16 + 0x10 * b + 0x1000 * (c % 4));
    DivIs(c / 4 + 0x40 * d, 0x1000, d / 64, c / 4 + 0x40 * (d % 64));
  }

  lemma Mask9(a: nat, b: nat, c: nat, d: nat)
    requires Bytes4(a, b, c, d)
    ensures And(Word(a, b, c, d) / 64, 0x3f0_3fff) == a / 64 + 4 * b + 0x400 * (c % 16) + 0x4_0000 * (d - d % 4)
  {
    hide And, Low, Shift;
    var x := a / 64 + 4 * b + 0x400 * c + 0x4_0000 * d;
    DivIs(Word(a, b, c, d), 64, x, a % 64);
    Pow2s();
    AndFields(x, 14, 20, 6);
    LowIs(x, 14);
    LowIs(x, 20);
    LowIs(x / 0x10_0000, 6);
    DivIs(x, 0x4000, c / 16 + 0x10 * d, a / 64 + 4 * b + 0x400 * (c % 16));
    DivIs(x, 0x10_0000, d / 4, a / 64 + 4 * b + 0x400 * c + 0x4_0000 * (d % 4));
    DivIs(d / 4, 0x40, 0, d / 4);
  }

  lemma Mask12(a: nat, b: nat, c: nat, d: nat)
    requires Bytes4(a, b, c, d)
    ensures And(Word(a, b, c, d) / 256, 0xf_ffff) == b + 0x100 * c + 0x1_0000 * (d % 16)
  {
    hide And, Low, Shift;
    Cut12(a, b, c, d);
    var x := b + 0x100 * c + 0x1_0000 * d;
    Pow2s();
    AndOnes(x, 20);
    LowIs(x, 20);
    DivIs(x, 0x10_0000, d / 16, b + 0x100 * c + 0x1_0000 * (d % 16));
  }

  lemma Mask0(x: nat)
    ensures And(x, 0x3ff_ffff) == x % B1
  {
    hide And, Low, Shift;
    Pow2s();
    AndOnes(x, 26);
    LowIs(x, 26);
  }

  function Mask(x: nat, mask: nat): nat {
    AndNat(x, mask);
    And(x, mask)
  }

  /** The limbs of r, masked word by word. */
  function Limbs(key: seq<byte>): Five
    requires |key| == 32
  {
    Five(Mask(WordAt(key, 0), 0x3ff_ffff), Mask(WordAt(key, 3) / 4, 0x3ff_ff03), Mask(WordAt(key, 6) / 16, 0x3ff_c0ff),
         Mask(WordAt(key, 9) / 64, 0x3f0_3fff), Mask(WordAt(key, 12) / 256, 0xf_ffff))
  }

  lemma Limb0(a: byte, b: byte, c: byte, d: byte)
    ensures Mask(Word(a, b, c, d), 0x3ff_ffff) == Word(a, b, c, d % 16) % B1
  {
    hide And, Word;
    Mask0(Word(a, b, c, d));
    Cut0(a, b, c, d);
    Cut0(a, b, c, d % 16);
    ModFour(d);
  }

  lemma Limb3(a: byte, b: byte, c: byte, d: byte)
    ensures Mask(Word(a, b, c, d) / 4, 0x3ff_ff03) == Word(a % 16, b - b % 4, c, d) / 4 % B1
  {
    hide And, Word;
    Mask3(a, b, c, d);
    Cut3(a % 16, b - b % 4, c, d);
  }

  lemma Limb6(a: byte, b: byte, c: byte, d: byte)
    ensures Mask(Word(a, b, c, d) / 16, 0x3ff_c0ff) == Word(a, b % 16, c - c % 4, d) / 16 % B1
  {
    hide And, Word;
    Mask6(a, b, c, d);
    Cut6(a, b % 16, c - c % 4, d);
  }

  lemma Limb9(a: byte, b: byte, c: byte, d: byte)
    ensures Mask(Word(a, b, c, d) / 64, 0x3f0_3fff) == Word(a, b, c % 16, d - d % 4) / 64 % B1
  {
    hide And, Word;
    Mask9(a, b, c, d);
    Cut9(a, b, c % 16, d - d % 4);
  }

  lemma Limb12(a: byte, b: byte, c: byte, d: byte)
    ensures Mask(Word(a, b, c, d) / 256, 0xf_ffff) == Word(a - a % 4, b, c, d % 16) / 256 < 0x10_0000
  {
    hide And, Word;
    Mask12(a, b, c, d);
    Cut12(a - a % 4, b, c, d % 16);
  }

  /** They are r as the RFC clamps it. */
  lemma LimbsValue(key: seq<byte>)
    requires |key| == 32
    ensures Limbs(key).Value() == Little(Clamp(key)) && Limbs(key).Below(B1) && Limbs(key).e < 0x10_0000
  {
    hide Val8, Word, Mask;
    var c := Clamp(key);
    CutValue(c);
    Limb0(key[0], key[1], key[2], key[3]);
    Limb3(key[3], key[4], key[5], key[6]);
    Limb6(key[6], key[7], key[8], key[9]);
    Limb9(key[9], key[10], key[11], key[12]);
    Limb12(key[12], key[13], key[14], key[15]);
    assert c[0] == key[0] && c[1] == key[1] && c[2] == key[2] && c[5] == key[5] && c[6] == key[6] && c[9] == key[9]
           && c[10] == key[10] && c[13] == key[13] && c[14] == key[14];
    assert c[3] == key[3] % 16 && c[7] == key[7] % 16 && c[11] == key[11] % 16 && c[15] == key[15] % 16;
    assert c[4] == key[4] - key[4] % 4 && c[8] == key[8] - key[8] % 4 && c[12] == key[12] - key[12] % 4;
    assert Limbs(key) == Cut(c);
  }

  lemma ModFour(b: byte)
    ensures b % 16 % 4 == b % 4
  {
  }

  // ---- One block --------------------------------------------------------------------------------

  /** A product of two words. */
  function Mul(x: nat, y: nat): (r: nat)
    requires x < 0x1_0000_0000 && y < 0x1_0000_0000
    ensures r == x * y && r < 0x1_0000_0000_0000_0000
  {
    Bounded(x, y, 0xffff_ffff, 0xffff_ffff);
    x * y
  }

  lemma Bounded(x: nat, y: nat, b: nat, c: nat)
    requires x <= b && y <= c
    ensures 0 <= x * y <= b * c
  {
    assert b * c - x * y == (b - x) * y + b * (c - y);
  }

  /** r shifted up a limb, what goes over the top coming back in below times 5. */
  function Turned(r: Five): Five {
    Five(5 * r.e, r.a, r.b, r.c, r.d)
  }

  lemma TurnedValue(r: Five)
    ensures Turned(r).Value() == B1 * r.Value() - P * r.e
  {
  }

  function Scaled(x: nat, r: Five): nat {
    x * r.a + B1 * (x * r.b) + B2 * (x * r.c) + B3 * (x * r.d) + B4 * (x * r.e)
  }

  lemma ScaledIs(x: nat, r: Five)
    ensures Scaled(x, r) == x * r.Value()
  {
    Spread(x, r.a, B1 * r.b + B2 * r.c + B3 * r.d + B4 * r.e);
    Spread(x, B1 * r.b, B2 * r.c + B3 * r.d + B4 * r.e);
    Spread(x, B2 * r.c, B3 * r.d + B4 * r.e);
    Spread(x, B3 * r.d, B4 * r.e);
    Swap(x, B1, r.b);
    Swap(x, B2, r.c);
    Swap(x, B3, r.d);
    Swap(x, B4, r.e);
  }

  lemma Spread(x: int, y: int, z: int)
    ensures x * (y + z) == x * y + x * z
  {
  }

  lemma Swap(x: int, y: int, z: int)
    ensures x * (y * z) == y * (x * z)
  {
  }

  lemma ModShift(x: int, k: int)
    ensures (x - P * k) % P == x % P
  {
  }

  /** A limb times r turned as often as its place says. */
  lemma RowOf(x: nat, r: Five, turned: Five, weight: nat, k: int)
    requires turned.Value() == weight * r.Value() - P * k
    ensures Scaled(x, turned) == weight * x * r.Value() - P * (x * k)
  {
    hide Five.Value;
    ScaledIs(x, turned);
    Spread(x, weight * r.Value(), -(P * k));
    Swap(x, weight, r.Value());
    Swap(x, P, k);
    Regroup(weight, x, r.Value());
  }

  /** The five sums a block makes, before its carries. */
  function Sums(h: Five, r: Five): Five {
    var (s1, s2, s3, s4) := (5 * r.b, 5 * r.c, 5 * r.d, 5 * r.e);
    Five(h.a * r.a + h.b * s4 + h.c * s3 + h.d * s2 + h.e * s1,
         h.a * r.b + h.b * r.a + h.c * s4 + h.d * s3 + h.e * s2,
         h.a * r.c + h.b * r.b + h.c * r.a + h.d * s4 + h.e * s3,
         h.a * r.d + h.b * r.c + h.c * r.b + h.d * r.a + h.e * s4,
         h.a * r.e + h.b * r.d + h.c * r.c + h.d * r.b + h.e * r.a)
  }

  lemma SumsRows(h: Five, r: Five)
    ensures var (r1, r2) := (Turned(r), Turned(Turned(r)));
            var (r3, r4) := (Turned(r2), Turned(Turned(r2)));
            Sums(h, r).Value() == Scaled(h.a, r) + Scaled(h.b, r1) + Scaled(h.c, r2) + Scaled(h.d, r3) + Scaled(h.e, r4)
  {
  }

  /** They stand for the product, modulo p. */
  lemma SumsValue(h: Five, r: Five)
    ensures Sums(h, r).Value() % P == h.Value() * r.Value() % P
  {
    hide Sums, Five.Value, Scaled;
    var r1 := Turned(r);
    var r2 := Turned(r1);
    var r3 := Turned(r2);
    var r4 := Turned(r3);
    SumsRows(h, r);
    TurnedValue(r);
    TurnedValue(r1);
    TurnedValue(r2);
    TurnedValue(r3);
    var v := r.Value();
    var k2, k3 := B1 * r.e + r1.e, B2 * r.e + B1 * r1.e + r2.e;
    var k4 := B3 * r.e + B2 * r1.e + B1 * r2.e + r3.e;
    RowOf(h.a, r, r, 1, 0);
    RowOf(h.b, r, r1, B1, r.e);
    RowOf(h.c, r, r2, B2, k2);
    RowOf(h.d, r, r3, B3, k3);
    RowOf(h.e, r, r4, B4, k4);
    Whole(h, v);
    ModShift(h.Value() * v, h.b * r.e + h.c * k2 + h.d * k3 + h.e * k4);
  }

  lemma Whole(h: Five, v: nat)
    ensures h.Value() * v == 1 * h.a * v + B1 * h.b * v + B2 * h.c * v + B3 * h.d * v + B4 * h.e * v
  {
    Spread(v, h.a, B1 * h.b + B2 * h.c + B3 * h.d + B4 * h.e);
    Spread(v, B1 * h.b, B2 * h.c + B3 * h.d + B4 * h.e);
    Spread(v, B2 * h.c, B3 * h.d + B4 * h.e);
    Spread(v, B3 * h.d, B4 * h.e);
  }

  /** A sum's own 26 bits, and what it carries. */
  function Rem(x: nat): (r: nat)
    ensures r < B1
  {
    x % B1
  }

  function Quot(x: nat): nat {
    x / B1
  }

  /** The carries of a block: five limbs again, and the number the same modulo p. */
  function Settled(d: Five): Five {
    var c0 := Quot(d.a);
    var c1 := Quot(d.b + c0);
    var c2 := Quot(d.c + c1);
    var c3 := Quot(d.d + c2);
    var c4 := Quot(d.e + c3);
    var low := Rem(d.a) + c4 * 5;
    Five(Rem(low), Rem(d.b + c0) + Quot(low), Rem(d.c + c1), Rem(d.d + c2), Rem(d.e + c3))
  }

  /** What goes over the top limb. */
  function Over(d: Five): nat {
    Quot(d.e + Quot(d.d + Quot(d.c + Quot(d.b + Quot(d.a)))))
  }

  lemma Parted(x: nat)
    ensures x == B1 * Quot(x) + Rem(x)
  {
  }

  lemma SettledValue(d: Five)
    ensures Settled(d).Value() == d.Value() - P * Over(d)
  {
    hide Rem, Quot;
    var c0 := Quot(d.a);
    var c1 := Quot(d.b + c0);
    var c2 := Quot(d.c + c1);
    var c3 := Quot(d.d + c2);
    var c4 := Quot(d.e + c3);
    Parted(d.a);
    Parted(d.b + c0);
    Parted(d.c + c1);
    Parted(d.d + c2);
    Parted(d.e + c3);
    Parted(Rem(d.a) + c4 * 5);
  }

  /** The sums of a block never come near 64 bits. */
  predicate Modest(d: Five) {
    && d.a < 0x400_0000_0000_0000 && d.b < 0x400_0000_0000_0000 && d.c < 0x400_0000_0000_0000
        && d.d < 0x400_0000_0000_0000
    && d.e < 0x84_0000_0000_0000
  }

  lemma SettledHeld(d: Five)
    requires Modest(d)
    ensures Held(Settled(d)) && Over(d) * 5 + B1 < 0x1_0000_0000
  {
  }

  /** Limbs with a block added, ready to be multiplied. */
  predicate Loaded(h: Five) {
    h.Below(2 * B1 + 64)
  }

  predicate Clamped(r: Five) {
    r.Below(B1) && r.e < 0x10_0000
  }

  lemma SumsModest(h: Five, r: Five)
    requires Loaded(h) && Clamped(r)
    ensures Modest(Sums(h, r))
  {
    var (s1, s2, s3, s4) := (5 * r.b, 5 * r.c, 5 * r.d, 5 * r.e);
    var (b, c) := (2 * B1 + 64, 5 * B1);
    assert Modest(Sums(h, r)) by {
      Bounded(h.a, r.a, b, B1); Bounded(h.a, r.b, b, B1); Bounded(h.a, r.c, b, B1); Bounded(h.a, r.d, b,
          B1); Bounded(h.a, r.e, b, 0x10_0000);
      Bounded(h.b, r.a, b, B1); Bounded(h.b, r.b, b, B1); Bounded(h.b, r.c, b, B1); Bounded(h.b, r.d, b,
          B1); Bounded(h.b, s4, b, 5 * 0x10_0000);
      Bounded(h.c, r.a, b, B1); Bounded(h.c, r.b, b, B1); Bounded(h.c, r.c, b, B1); Bounded(h.c, s3, b,
          c); Bounded(h.c, s4, b, 5 * 0x10_0000);
      Bounded(h.d, r.a, b, B1); Bounded(h.d, r.b, b, B1); Bounded(h.d, s2, b, c); Bounded(h.d, s3, b, c); Bounded(h.d,
          s4, b, 5 * 0x10_0000);
      Bounded(h.e, r.a, b, B1); Bounded(h.e, s1, b, c); Bounded(h.e, s2, b, c); Bounded(h.e, s3, b, c); Bounded(h.e,
          s4, b, 5 * 0x10_0000);
    }
  }

  /** A block added to the accumulator; `high` is the one after its 16 bytes. */
  function Added(h: Five, chunk: seq<byte>, high: nat): Five
    requires |chunk| == 16
  {
    var n := Cut(chunk);
    Five(h.a + n.a, h.b + n.b, h.c + n.c, h.d + n.d, h.e + n.e + high)
  }

  lemma AddedIs(h: Five, chunk: seq<byte>, last: bool)
    requires |chunk| == 16 && Held(h)
    ensures var high := if last then 0 else 0x100_0000;
            && Loaded(Added(h, chunk, high)) && Val8(chunk) >= 0
            && Added(h, chunk, high).Value() == h.Value() + Little(chunk) + if last then 0 else POW128
  {
    hide Val8, Cut;
    Val8Range(chunk);
    CutValue(chunk);
  }

  /** The top limb's bits do not meet the one above them. */
  lemma HighBit(x: nat)
    requires x < 0x100_0000
    ensures Or(x, 0x100_0000) == x + 0x100_0000 && Or(x, 0) == x
  {
    hide Or;
    Pow2At24();
    OrApart(x, 1, 24);
    OrZero(x);
  }

  lemma Pow2At24()
    ensures Pow2(24) == 0x100_0000
  {
    hide Pow2;
    Pow2s();
    Pow2Sum(12, 12);
  }

  /** One block taken in: added, multiplied by r, carried. No 32-bit or 64-bit
      word overflows. */
  method Block(h0: Five, r: Five, chunk: seq<byte>, last: bool) returns (h: Five)
    requires Held(h0) && Clamped(r) && |chunk| == 16
    ensures h == Settled(Sums(Added(h0, chunk, if last then 0 else 0x100_0000), r)) && Held(h)
  {
    hide Val8, Or, Sums, Mul, Word;
    var high := if last then 0 else 0x100_0000;
    AddedIs(h0, chunk, last);
    CutValue(chunk);
    HighBit(Cut(chunk).e);
    var t := Five(U32(h0.a + WordAt(chunk, 0) % B1), U32(h0.b + WordAt(chunk, 3) / 4 % B1), U32(h0.c + WordAt(chunk,
        6) / 16 % B1),
                  U32(h0.d + WordAt(chunk, 9) / 64 % B1), U32(h0.e + Or(WordAt(chunk, 12) / 256, high)));
    assert t == Added(h0, chunk, high);
    SumsModest(t, r);
    var d := Products(t, r);
    SettledHeld(d);
    h := Carry(d);
  }

  /** The twenty-five products. */
  method Products(h: Five, r: Five) returns (d: Five)
    requires Loaded(h) && Clamped(r)
    ensures d == Sums(h, r)
  {
    SumsModest(h, r);
    var s1, s2, s3, s4 := U32(r.b * 5), U32(r.c * 5), U32(r.d * 5), U32(r.e * 5);
    var d0 := U64(Mul(h.a, r.a) + Mul(h.b, s4) + Mul(h.c, s3) + Mul(h.d, s2) + Mul(h.e, s1));
    var d1 := U64(Mul(h.a, r.b) + Mul(h.b, r.a) + Mul(h.c, s4) + Mul(h.d, s3) + Mul(h.e, s2));
    var d2 := U64(Mul(h.a, r.c) + Mul(h.b, r.b) + Mul(h.c, r.a) + Mul(h.d, s4) + Mul(h.e, s3));
    var d3 := U64(Mul(h.a, r.d) + Mul(h.b, r.c) + Mul(h.c, r.b) + Mul(h.d, r.a) + Mul(h.e, s4));
    var d4 := U64(Mul(h.a, r.e) + Mul(h.b, r.d) + Mul(h.c, r.c) + Mul(h.d, r.b) + Mul(h.e, r.a));
    d := Five(d0, d1, d2, d3, d4);
  }

  lemma Lower(x: nat, limit: nat)
    requires x < B1 * limit
    ensures Quot(x) < limit
  {
  }

  /** One carry on to the next limb. */
  method CarryOn(x: nat, carry: nat) returns (limb: nat, next: nat)
    requires x < 0x400_0000_0000_0000 && carry < 0x1_0000_0100
    ensures limb == Rem(x + carry) && next == Quot(x + carry) && next < 0x1_0000_0100
    ensures x < 0x84_0000_0000_0000 ==> next < 0x2200_0000
  {
    Lower(x + carry, 0x1_0000_0100);
    if x < 0x84_0000_0000_0000 {
      Lower(x + carry, 0x2200_0000);
    }
    var d := U64(x + carry);
    limb, next := d % B1, d / B1;
  }

  /** The carries, in their order. */
  method Carry(d: Five) returns (h: Five)
    requires Modest(d)
    ensures h == Settled(d)
  {
    hide Rem, Quot;
    var h0, h1, h2, h3, h4, carry;
    h0, carry := CarryOn(d.a, 0);
    h1, carry := CarryOn(d.b, carry);
    h2, carry := CarryOn(d.c, carry);
    h3, carry := CarryOn(d.d, carry);
    h4, carry := CarryOn(d.e, carry);
    h0 := U32(h0 + U32(U32(carry) * 5));
    Lower(h0, 64);
    carry := Quot(h0);
    h0 := Rem(h0);
    h1 := U32(h1 + carry);
    h := Five(h0, h1, h2, h3, h4);
  }

  lemma SumMod(x: int, y: int)
    ensures (x % P + y) % P == (x + y) % P
  {
    ModShift(x + y, x / P);
  }

  lemma MulMod(x: int, y: int)
    ensures x % P * y % P == x * y % P
  {
    var q, m := x / P, x % P;
    assert x == m + P * q;
    Spread(y, m, P * q);
    Swap(y, P, q);
    ModShift(x * y, y * q);
  }

  /** A block is absorbed as the RFC says. */
  lemma BlockIs(h: Five, r: Five, chunk: seq<byte>, acc: nat)
    requires Held(h) && |chunk| == 16 && h.Value() % P == acc
    ensures var d := Sums(Added(h, chunk, 0x100_0000), r); Settled(d).Value() % P == Absorb(r.Value(), acc, chunk)
  {
    hide Val8, Sums, Settled, Added, Five.Value;
    var t := Added(h, chunk, 0x100_0000);
    AddedIs(h, chunk, false);
    SumsValue(t, r);
    SettledMod(Sums(t, r));
    OneAfter(chunk);
    Stepped(h.Value(), acc, Little(chunk) + POW128, r.Value());
  }

  /** So is the last one, shorter, with its one and its zeros written out. */
  lemma LastIs(h: Five, r: Five, rest: seq<byte>, chunk: seq<byte>, acc: nat)
    requires Held(h) && |rest| < 16 && chunk == rest + [1] + Zeros(15 - |rest|) && h.Value() % P == acc
    ensures |chunk| == 16
    ensures var d := Sums(Added(h, chunk, 0), r); Settled(d).Value() % P == Absorb(r.Value(), acc, rest)
  {
    hide Val8, Sums, Settled, Added, Five.Value;
    var t := Added(h, chunk, 0);
    AddedIs(h, chunk, true);
    SumsValue(t, r);
    SettledMod(Sums(t, r));
    Val8Concat(rest + [1], Zeros(15 - |rest|));
    ZerosValue(15 - |rest|);
    NoMore(W8(|rest| + 1));
    Stepped(h.Value(), acc, Little(chunk), r.Value());
  }

  lemma NoMore(w: int)
    ensures w * 0 == 0
  {
  }

  lemma {:induction false} ZerosValue(n: nat)
    ensures Val8(Zeros(n)) == 0
  {
    if n > 0 {
      assert Zeros(n)[1..] == Zeros(n - 1);
      ZerosValue(n - 1);
    }
  }

  lemma SettledMod(d: Five)
    ensures Settled(d).Value() % P == d.Value() % P
  {
    hide Settled, Five.Value, Over;
    SettledValue(d);
    ModShift(d.Value(), Over(d));
  }

  lemma OneAfter(chunk: seq<byte>)
    requires |chunk| == 16
    ensures Little(chunk + [1]) == Little(chunk) + POW128
  {
    hide Val8, W8;
    Val8Snoc(chunk, 1);
    W8At16();
  }

  lemma W8At16()
    ensures W8(16) == POW128
  {
    assert W8(1) == 0x100 * W8(0);
    hide W8;
    W8Sum(1, 1);
    W8Sum(2, 2);
    W8Sum(4, 4);
    W8Sum(8, 8);
  }

  lemma Stepped(h: nat, acc: nat, n: nat, r: nat)
    requires h % P == acc
    ensures (h + n) * r % P == (acc + n) * r % P
  {
    SumMod(h, n);
    MulMod(h + n, r);
    MulMod(acc + n, r);
  }
}
