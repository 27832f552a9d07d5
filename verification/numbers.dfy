/** Numbers in limbs and bytes, powers, and the bit operations of signed words. */
module Numbers {
  import opened Base

  // ---- Powers of two ----------------------------------------------------------------------------

  function Pow2(n: nat): (r: nat)
    ensures r > 0
  {
    if n == 0 then 1 else 2 * Pow2(n - 1)
  }

  lemma {:induction false} Pow2Sum(a: nat, b: nat)
    ensures Pow2(a + b) == Pow2(a) * Pow2(b)
  {
    if a > 0 {
      Pow2Sum(a - 1, b);
      Times2(Pow2(a - 1), Pow2(b));
    }
  }

  lemma Times2(x: int, y: int)
    ensures 2 * x * y == 2 * (x * y)
  {
  }

  /** 65536 to the `i`, 256 to the `i`. */
  function W16(i: nat): (r: nat)
    ensures r > 0
  {
    if i == 0 then 1 else 0x1_0000 * W16(i - 1)
  }

  function W8(i: nat): (r: nat)
    ensures r > 0
  {
    if i == 0 then 1 else 0x100 * W8(i - 1)
  }

  lemma {:induction false} W16Sum(a: nat, b: nat)
    ensures W16(a + b) == W16(a) * W16(b)
  {
    if a > 0 {
      W16Sum(a - 1, b);
      Regroup(0x1_0000, W16(a - 1), W16(b));
    }
  }

  lemma {:induction false} W8Sum(a: nat, b: nat)
    ensures W8(a + b) == W8(a) * W8(b)
  {
    if a > 0 {
      W8Sum(a - 1, b);
      Regroup(0x100, W8(a - 1), W8(b));
    }
  }

  lemma Regroup(x: int, y: int, z: int)
    ensures x * y * z == x * (y * z)
  {
  }

  const POW256: nat := 0x1_0000_0000_0000_0000_0000_0000_0000_0000_0000_0000_0000_0000_0000_0000_0000_0000

  lemma W16At16()
    ensures W16(1) == 0x1_0000 && W16(16) == POW256
  {
    assert W16(1) == 0x1_0000 * W16(0);
    W16Sum(1, 1);
    W16Sum(2, 2);
    W16Sum(4, 4);
    W16Sum(8, 8);
    assert W16(2) == 0x1_0000_0000;
    assert W16(4) == 0x1_0000_0000_0000_0000;
    assert W16(8) == 0x1_0000_0000_0000_0000_0000_0000_0000_0000;
  }

  // ---- Limbs ------------------------------------------------------------------------------------

  /** The number some limbs of 16 bits stand for, lowest first; limbs may be
      negative or large. */
  function Val(s: seq<int>): int {
    if s == [] then 0 else s[0] + 0x1_0000 * Val(s[1..])
  }

  /** The number some bytes stand for, lowest first. */
  function Val8(s: seq<int>): int {
    if s == [] then 0 else s[0] + 0x100 * Val8(s[1..])
  }

  lemma {:induction false} ValPlus(s: seq<int>, k: nat, d: int)
    requires k < |s|
    ensures Val(s[k := s[k] + d]) == Val(s) + W16(k) * d
  {
    var t := s[k := s[k] + d];
    if k == 0 {
      assert t[1..] == s[1..];
    } else {
      assert t[1..] == s[1..][k - 1 := s[1..][k - 1] + d];
      ValPlus(s[1..], k - 1, d);
      Regroup(0x1_0000, W16(k - 1), d);
    }
  }

  lemma {:induction false} Val8Plus(s: seq<int>, k: nat, d: int)
    requires k < |s|
    ensures Val8(s[k := s[k] + d]) == Val8(s) + W8(k) * d
  {
    var t := s[k := s[k] + d];
    if k == 0 {
      assert t[1..] == s[1..];
    } else {
      assert t[1..] == s[1..][k - 1 := s[1..][k - 1] + d];
      Val8Plus(s[1..], k - 1, d);
      Regroup(0x100, W8(k - 1), d);
    }
  }

  lemma {:induction false} ValConcat(a: seq<int>, b: seq<int>)
    ensures Val(a + b) == Val(a) + W16(|a|) * Val(b)
  {
    if a == [] {
      assert a + b == b;
    } else {
      assert (a + b)[1..] == a[1..] + b;
      ValConcat(a[1..], b);
      Regroup(0x1_0000, W16(|a| - 1), Val(b));
    }
  }

  lemma {:induction false} Val8Concat(a: seq<int>, b: seq<int>)
    ensures Val8(a + b) == Val8(a) + W8(|a|) * Val8(b)
  {
    if a == [] {
      assert a + b == b;
    } else {
      assert (a + b)[1..] == a[1..] + b;
      Val8Concat(a[1..], b);
      Regroup(0x100, W8(|a| - 1), Val8(b));
    }
  }

  lemma ValOne(x: int)
    ensures Val([x]) == x && Val8([x]) == x
  {
    assert [x][1..] == [];
  }

  /** One more limb at the top. */
  lemma ValSnoc(s: seq<int>, x: int)
    ensures Val(s + [x]) == Val(s) + W16(|s|) * x
  {
    hide W16, Val;
    ValConcat(s, [x]);
    ValOne(x);
  }

  lemma Val8Snoc(s: seq<int>, x: int)
    ensures Val8(s + [x]) == Val8(s) + W8(|s|) * x
  {
    hide W8, Val8;
    Val8Concat(s, [x]);
    ValOne(x);
  }

  /** Limbs in their range make a number in its range. */
  lemma {:induction false} ValRange(s: seq<int>)
    requires forall i | 0 <= i < |s| :: 0 <= s[i] < 0x1_0000
    ensures 0 <= Val(s) < W16(|s|)
  {
    if s != [] {
      ValRange(s[1..]);
    }
  }

  lemma {:induction false} Val8Range(s: seq<int>)
    requires forall i | 0 <= i < |s| :: 0 <= s[i] < 0x100
    ensures 0 <= Val8(s) < W8(|s|)
  {
    if s != [] {
      Val8Range(s[1..]);
    }
  }

  /** Bytes are determined by the number they stand for. */
  lemma {:induction false} Val8Unique(a: seq<int>, b: seq<int>)
    requires |a| == |b| && Val8(a) == Val8(b)
    requires forall i | 0 <= i < |a| :: 0 <= a[i] < 0x100 && 0 <= b[i] < 0x100
    ensures a == b
  {
    if a != [] {
      assert a[0] == b[0];
      Val8Unique(a[1..], b[1..]);
      assert a == [a[0]] + a[1..] && b == [b[0]] + b[1..];
    }
  }

  // ---- Signed words, bit by bit -----------------------------------------------------------------

  /** How far a word is from 0 or -1, whichever is on its side. */
  function Span(x: int): nat {
    if x < 0 then -x - 1 else x
  }

  /** Exclusive or in two's complement. */
  function Xor(x: int, y: int): int
    decreases Span(x) + Span(y)
  {
    if Span(x) == 0 && Span(y) == 0 then (if x == y then 0 else -1)
    else 2 * Xor(x / 2, y / 2) + (if x % 2 == y % 2 then 0 else 1)
  }

  /** And in two's complement. */
  function And(x: int, y: int): int
    decreases Span(x) + Span(y)
  {
    if Span(x) == 0 && Span(y) == 0 then (if x == y then x else 0)
    else 2 * And(x / 2, y / 2) + (if x % 2 == 1 && y % 2 == 1 then 1 else 0)
  }

  function Not(x: int): int {
    -x - 1
  }

  lemma {:induction false} XorHalf(x: int, y: int)
    ensures Xor(x, y) / 2 == Xor(x / 2, y / 2) && Xor(x, y) % 2 == (if x % 2 == y % 2 then 0 else 1)
  {
  }

  lemma {:induction false} XorBack(x: int, y: int)
    ensures Xor(x, Xor(x, y)) == y && Xor(y, Xor(x, y)) == x
    decreases Span(x) + Span(y)
  {
    if !(Span(x) == 0 && Span(y) == 0) {
      XorBack(x / 2, y / 2);
      XorHalf(x, y);
      XorHalf(x, Xor(x, y));
      XorHalf(y, Xor(x, y));
    }
  }

  lemma {:induction false} XorSame(x: int, y: int)
    ensures Xor(x, y) == Xor(y, x)
    decreases Span(x) + Span(y)
  {
    if !(Span(x) == 0 && Span(y) == 0) {
      XorSame(x / 2, y / 2);
    }
  }

  lemma {:induction false} XorZero(x: int)
    ensures Xor(x, 0) == x
    decreases Span(x)
  {
    if Span(x) > 0 {
      XorZero(x / 2);
    }
  }

  lemma {:induction false} AndMask(x: int)
    ensures And(0, x) == 0 && And(-1, x) == x
    decreases Span(x)
  {
    if Span(x) > 0 {
      AndMask(x / 2);
    }
  }

  lemma {:induction false} XorRange(x: int, y: int, n: nat)
    requires Span(x) < Pow2(n) && Span(y) < Pow2(n)
    ensures Span(Xor(x, y)) < Pow2(n)
    decreases n
  {
    if n > 0 {
      XorRange(x / 2, y / 2, n - 1);
      XorHalf(x, y);
    }
  }

  lemma Pow2At63()
    ensures Pow2(63) == 0x8000_0000_0000_0000
  {
    Pow2At8();
    hide Pow2;
    Pow2Sum(8, 8);
    Pow2Sum(16, 16);
    Pow2Sum(32, 31);
    Pow2Sum(1, 31);
    Pow2Of1();
  }

  lemma Pow2Of1()
    ensures Pow2(1) == 2
  {
  }

  // ---- Bits of a number -------------------------------------------------------------------------

  function Shift(x: nat, t: nat): nat {
    if t == 0 then x else Shift(x / 2, t - 1)
  }

  function BitOf(x: nat, t: nat): (r: nat)
    ensures r <= 1
  {
    Shift(x, t) % 2
  }

  lemma {:induction false} ShiftLow(b: nat, m: nat, c: nat, t: nat)
    requires t < c
    ensures BitOf(b + Pow2(c) * m, t) == BitOf(b, t)
  {
    Regroup(2, Pow2(c - 1), m);
    if t > 0 {
      assert (b + Pow2(c) * m) / 2 == b / 2 + Pow2(c - 1) * m;
      ShiftLow(b / 2, m, c - 1, t - 1);
    }
  }

  lemma {:induction false} ShiftSum(x: nat, a: nat, b: nat)
    ensures Shift(x, a + b) == Shift(Shift(x, a), b)
  {
    if a > 0 {
      ShiftSum(x / 2, a - 1, b);
    }
  }

  lemma Shift4(x: nat)
    ensures Shift(x, 4) == x / 16
  {
    assert Shift(x, 4) == Shift(x / 2, 3) == Shift(x / 4, 2) == Shift(x / 8, 1) == Shift(x / 16, 0);
  }

  lemma ShiftByte(x: nat)
    ensures Shift(x, 8) == x / 256
  {
    hide Shift;
    ShiftSum(x, 4, 4);
    Shift4(x);
    Shift4(x / 16);
  }

  lemma Val8Head(s: seq<byte>)
    requires s != []
    ensures Val8(s) == s[0] + 256 * Val8(s[1..])
  {
  }

  lemma BitPast(x: nat, t: nat)
    requires t >= 8
    ensures BitOf(x, t) == BitOf(x / 256, t - 8)
  {
    hide Shift;
    ShiftSum(x, 8, t - 8);
    ShiftByte(x);
  }

  lemma Pow2At8()
    ensures Pow2(8) == 256
  {
  }

  /** Bit `t` of a number is in byte `t / 8`. */
  lemma {:induction false} BitInByte(s: seq<byte>, t: nat)
    requires t < 8 * |s|
    ensures Val8(s) >= 0 && BitOf(Val8(s), t) == BitOf(s[t / 8], t % 8)
  {
    hide Shift, Pow2, BitOf, W8, Val8;
    Val8Range(s);
    Val8Range(s[1..]);
    Val8Head(s);
    var m := Val8(s[1..]);
    if t < 8 {
      Pow2At8();
      ShiftLow(s[0], m, 8, t);
    } else {
      BitPast(Val8(s), t);
      BitInByte(s[1..], t - 8);
    }
  }

  // ---- Fields of bits ---------------------------------------------------------------------------

  /** The lowest `k` bits. */
  function Low(x: nat, k: nat): nat {
    if k == 0 then 0 else x % 2 + 2 * Low(x / 2, k - 1)
  }

  lemma MulSmall(m: int, t: int)
    requires -m < m * t < m
    ensures t == 0
  {
    assert t >= 1 ==> m * t >= m;
    assert t <= -1 ==> m * t <= -m;
  }

  /** Quotient and remainder are what they should be. */
  lemma DivIs(x: nat, m: nat, q: nat, r: nat)
    requires x == m * q + r && r < m
    ensures x / m == q && x % m == r
  {
    assert x == m * (x / m) + x % m;
    assert m * (x / m - q) == m * (x / m) - m * q;
    MulSmall(m, x / m - q);
  }

  lemma {:induction false} LowShift(x: nat, k: nat)
    ensures Low(x, k) < Pow2(k) && x == Low(x, k) + Pow2(k) * Shift(x, k)
  {
    if k > 0 {
      LowShift(x / 2, k - 1);
      Regroup(2, Pow2(k - 1), Shift(x / 2, k - 1));
    }
  }

  /** The lowest bits and the others, by division. */
  lemma LowIs(x: nat, k: nat)
    ensures Low(x, k) == x % Pow2(k) && Shift(x, k) == x / Pow2(k)
  {
    LowShift(x, k);
    DivIs(x, Pow2(k), Shift(x, k), Low(x, k));
  }

  lemma {:induction false} AndOnes(x: nat, k: nat)
    ensures And(x, Pow2(k) - 1) == Low(x, k)
  {
    if k > 0 {
      AndOnes(x / 2, k - 1);
      AndHalf(x, Pow2(k) - 1);
      assert (Pow2(k) - 1) / 2 == Pow2(k - 1) - 1 && (Pow2(k) - 1) % 2 == 1;
    } else {
      AndMask(x);
      AndSame(x, 0);
    }
  }

  lemma {:induction false} AndSame(x: int, y: int)
    ensures And(x, y) == And(y, x)
    decreases Span(x) + Span(y)
  {
    if !(Span(x) == 0 && Span(y) == 0) {
      AndSame(x / 2, y / 2);
    }
  }

  lemma AndHalf(x: nat, y: nat)
    ensures And(x, y) == 2 * And(x / 2, y / 2) + (if x % 2 == 1 && y % 2 == 1 then 1 else 0)
  {
    if Span(x) == 0 && Span(y) == 0 {
      assert And(0, 0) == 0;
    }
  }

  lemma {:induction false} AndNat(x: nat, y: nat)
    ensures And(x, y) >= 0
  {
    if x > 0 || y > 0 {
      AndNat(x / 2, y / 2);
    }
  }

  /** A mask of two fields of ones, one at the bottom and one from bit `n` on. */
  function TwoFields(m: nat, n: nat, k: nat): nat {
    Pow2(m) - 1 + Pow2(n) * (Pow2(k) - 1)
  }

  lemma {:induction false} AndFields(x: nat, m: nat, n: nat, k: nat)
    requires m <= n
    ensures And(x, TwoFields(m, n, k)) == Low(x, m) + Pow2(n) * Low(Shift(x, n), k)
    decreases n
  {
    hide And;
    if n == 0 {
      AndOnes(x, k);
    } else {
      var rest := if m > 0 then m - 1 else 0;
      Regroup(2, Pow2(n - 1), Pow2(k) - 1);
      Regroup(2, Pow2(n - 1), Low(Shift(x, n), k));
      assert TwoFields(m, n, k) / 2 == TwoFields(rest, n - 1, k) && TwoFields(m, n, k) % 2 == if m > 0 then 1 else 0;
      AndHalf(x, TwoFields(m, n, k));
      AndFields(x / 2, rest, n - 1, k);
    }
  }

  /** Or, of numbers. */
  function Or(x: nat, y: nat): nat
    decreases x + y
  {
    if x == 0 && y == 0 then 0 else 2 * Or(x / 2, y / 2) + (if x % 2 == 1 || y % 2 == 1 then 1 else 0)
  }

  lemma {:induction false} OrZero(x: nat)
    ensures Or(x, 0) == x && Or(0, x) == x
  {
    if x > 0 {
      OrZero(x / 2);
    }
  }

  /** Bits below bit `n` and bits from it on do not meet. */
  lemma {:induction false} OrApart(x: nat, y: nat, n: nat)
    requires x < Pow2(n)
    ensures Or(x, Pow2(n) * y) == x + Pow2(n) * y
  {
    if n == 0 {
      OrZero(y);
    } else {
      Regroup(2, Pow2(n - 1), y);
      OrApart(x / 2, y, n - 1);
      assert (Pow2(n) * y) / 2 == Pow2(n - 1) * y && (Pow2(n) * y) % 2 == 0;
      if x == 0 && Pow2(n) * y == 0 {
        assert Or(0, 0) == 0;
      }
    }
  }

  /** Exclusive or of numbers of `n` bits is one, and is zero only for equals. */
  lemma {:induction false} XorNat(x: nat, y: nat, n: nat)
    requires x < Pow2(n) && y < Pow2(n)
    ensures 0 <= Xor(x, y) < Pow2(n) && (Xor(x, y) == 0 <==> x == y)
  {
    if n > 0 {
      XorNat(x / 2, y / 2, n - 1);
      XorHalf(x, y);
    }
  }

  lemma {:induction false} OrNone(x: nat, y: nat)
    ensures Or(x, y) == 0 <==> x == 0 && y == 0
  {
    if x > 0 || y > 0 {
      OrNone(x / 2, y / 2);
    }
  }
}
