/** The end of Poly1305: the accumulator brought below 2^130 - 5, and the tag. */
module PolyFinish {
  import opened Numbers
  import opened Poly1305s

  // ---- The last carries -------------------------------------------------------------------------

  /** A carry goes on only where one came in. */
  lemma CarriedOn(x: nat, carry: nat)
    requires x < B1 && carry <= 1
    ensures Quot(x + carry) <= carry && x + carry == B1 * Quot(x + carry) + Rem(x + carry)
  {
  }

  lemma Excess(x: nat)
    requires x < B1 + 64
    ensures Quot(x) <= 1 && (Quot(x) == 1 ==> Rem(x) < 64) && x == B1 * Quot(x) + Rem(x)
  {
  }

  /** One chain of carries from the second limb round to it again. */
  method Normalise(h: Five) returns (n: Five)
    requires Held(h)
    ensures n.Below(B1) && n.Value() % P == h.Value() % P
  {
    hide Rem, Quot;
    Excess(h.b);
    var carry := Quot(h.b);
    var b := Rem(h.b);
    CarriedOn(h.c, carry);
    var c := U32(h.c + carry);
    carry, c := Quot(c), Rem(c);
    CarriedOn(h.d, carry);
    var d := U32(h.d + carry);
    carry, d := Quot(d), Rem(d);
    CarriedOn(h.e, carry);
    var e := U32(h.e + carry);
    carry, e := Quot(e), Rem(e);
    var a := U32(h.a + U32(carry * 5));
    ghost var over := carry;
    if carry == 0 {
      CarriedOn(a, 0);
    }
    Excess(a);
    carry, a := Quot(a), Rem(a);
    b := U32(b + carry);
    n := Five(a, b, c, d, e);
    assert n.Value() == h.Value() - P * over;
    ModShift(h.Value(), over);
  }

  // ---- The choice -------------------------------------------------------------------------------

  const ONES: nat := 0xffff_ffff

  lemma Masked(x: nat)
    requires x < 0x1_0000_0000
    ensures Mask(x, 0) == 0 && Mask(x, ONES) == x
  {
    hide And, Low, Shift;
    Pow2s();
    AndOnes(x, 32);
    LowIs(x, 32);
    AndMask(x);
    AndSame(x, 0);
  }

  /** One limb or the other, by mask. */
  function Chosen(h: nat, g: nat, mask: nat): nat
    requires mask <= ONES
  {
    Or(Mask(h, ONES - mask), Mask(g, mask))
  }

  lemma ChosenIs(h: nat, g: nat)
    requires h < 0x1_0000_0000 && g < 0x1_0000_0000
    ensures Chosen(h, g, 0) == h && Chosen(h, g, ONES) == g
  {
    hide Mask, Or;
    Masked(h);
    Masked(g);
    OrZero(h);
    OrZero(g);
  }

  /** h + 5 in limbs, its top one not cut: so that its bit 130 tells whether h is at least p. */
  method PlusFive(h: Five) returns (g: Five)
    requires h.Below(B1)
    ensures g.a < B1 && g.b < B1 && g.c < B1 && g.d < B1 && h.e <= g.e <= h.e + 1
    ensures g.Value() == h.Value() + 5
  {
    hide Rem, Quot;
    var value := U32(h.a + 5);
    Parted(value);
    Lower(value, 2);
    var g0, carry := Rem(value), Quot(value);
    value := U32(h.b + carry);
    Parted(value);
    Lower(value, 2);
    var g1 := Rem(value);
    carry := Quot(value);
    value := U32(h.c + carry);
    Parted(value);
    Lower(value, 2);
    var g2 := Rem(value);
    carry := Quot(value);
    value := U32(h.d + carry);
    Parted(value);
    Lower(value, 2);
    var g3 := Rem(value);
    carry := Quot(value);
    g := Five(g0, g1, g2, g3, h.e + carry);
  }

  /** The top limb's sign, as a mask: all ones when the number has reached p. */
  lemma SignMask(e: nat)
    requires e <= B1
    ensures var g4 := (e - B1) % 0x1_0000_0000;
            (g4 / 0x8000_0000 % 2 - 1) % 0x1_0000_0000 == (if e < B1 then 0 else ONES) && (e == B1 ==> g4 == 0)
  {
  }

  /** The number as it is when it is below p, less p otherwise, chosen without a
      branch. */
  method Choose(h: Five) returns (n: Five)
    requires h.Below(B1)
    ensures n.Below(B1) && n.Value() == h.Value() % P
  {
    hide Chosen;
    var g := PlusFive(h);
    SignMask(g.e);
    var g4 := (g.e - B1) % 0x1_0000_0000;
    var mask := (g4 / 0x8000_0000 % 2 - 1) % 0x1_0000_0000;
    ChosenIs(h.a, g.a);
    ChosenIs(h.b, g.b);
    ChosenIs(h.c, g.c);
    ChosenIs(h.d, g.d);
    ChosenIs(h.e, g4);
    n := Five(Chosen(h.a, g.a, mask), Chosen(h.b, g.b, mask), Chosen(h.c, g.c, mask), Chosen(h.d, g.d, mask),
        Chosen(h.e, g4, mask));
    Reached(h, g);
    Once(h.Value());
  }

  lemma Reached(h: Five, g: Five)
    requires h.Below(B1) && g.a < B1 && g.b < B1 && g.c < B1 && g.d < B1 && g.Value() == h.Value() + 5 && g.e <= B1
    ensures g.e < B1 <==> h.Value() < P
    ensures g.e == B1 ==> Five(g.a, g.b, g.c, g.d, 0).Value() == h.Value() - P
    ensures h.Value() < POW130
  {
  }

  lemma Once(x: nat)
    requires x < POW130
    ensures x % P == if x < P then x else x - P
  {
  }

  // ---- The tag ----------------------------------------------------------------------------------

  /** Two limbs meeting in a 32-bit word: the rest of one, the start of the
      next. */
  lemma Meet(x: nat, y: nat, n: nat, low: nat)
    requires low <= 32 && x < Pow2(low) && n == 32 - low
    ensures Or(x, y * Pow2(low) % 0x1_0000_0000) == x + Pow2(low) * (y % Pow2(n))
  {
    hide Pow2, Or;
    Pow2s();
    Pow2Sum(n, low);
    var q, r := y / Pow2(n), y % Pow2(n);
    Split(y, Pow2(n), Pow2(low), q, r);
    DivIs(y * Pow2(low), 0x1_0000_0000, q, r * Pow2(low));
    OrApart(x, r, low);
  }

  lemma Split(y: nat, m: nat, w: nat, q: nat, r: nat)
    requires m > 0 && w > 0 && y == m * q + r && r < m
    ensures y * w == m * w * q + r * w && r * w < m * w
  {
    Spread(w, m * q, r);
    Swap(w, m, q);
    Regroup(m, w, q);
    Bounded(r, w, m - 1, w);
    Spread(w, m, -1);
  }

  /** The number modulo 2^128, in four words. */
  method Words(h: Five) returns (out: seq<nat>)
    requires h.Below(B1)
    ensures |out| == 4 && (forall i | 0 <= i < 4 :: out[i] < 0x1_0000_0000)
    ensures out[0] + 0x1_0000_0000 * out[1] + 0x1_0000_0000_0000_0000 * out[2] + 0x1_0000_0000_0000_0000_0000_0000 * out[3] == h.Value() % POW128
  {
    hide Or, Pow2;
    Pow2s();
    Lower26(h.b);
    Lower26(h.c);
    Lower26(h.d);
    Meet(h.a, h.b, 6, 26);
    Meet(h.b / 0x40, h.c, 12, 20);
    Meet(h.c / 0x1000, h.d, 18, 14);
    Meet(h.d / 0x4_0000, h.e, 24, 8) by {
      Pow2At24();
    }
    Pow2At24();
    out := [Or(h.a, h.b * B1 % 0x1_0000_0000), Or(h.b / 0x40, h.c * 0x10_0000 % 0x1_0000_0000),
            Or(h.c / 0x1000, h.d * 0x4000 % 0x1_0000_0000), Or(h.d / 0x4_0000, h.e * 0x100 % 0x1_0000_0000)];
    WordsValue(h);
  }

  lemma Lower26(x: nat)
    requires x < B1
    ensures x / 0x40 < 0x10_0000 && x / 0x1000 < 0x4000 && x / 0x4_0000 < 0x100
  {
  }

  lemma WordsValue(h: Five)
    requires h.Below(B1)
    ensures var (w0, w1) := (h.a + B1 * (h.b % 0x40), h.b / 0x40 + 0x10_0000 * (h.c % 0x1000));
            var (w2, w3) := (h.c / 0x1000 + 0x4000 * (h.d % 0x4_0000), h.d / 0x4_0000 + 0x100 * (h.e % 0x100_0000));
            && w0 < 0x1_0000_0000 && w1 < 0x1_0000_0000 && w2 < 0x1_0000_0000 && w3 < 0x1_0000_0000
            && w0 + 0x1_0000_0000 * w1 + 0x1_0000_0000_0000_0000 * w2 + 0x1_0000_0000_0000_0000_0000_0000 * w3
                == h.Value() % POW128
  {
    Cuts(h.b, 0x40);
    Cuts(h.c, 0x1000);
    Cuts(h.d, 0x4_0000);
    Cuts(h.e, 0x100_0000);
    Lower26(h.b);
    Lower26(h.c);
    Lower26(h.d);
    var low := h.Value() - POW128 * (h.e / 0x100_0000);
    DivIs(h.Value(), POW128, h.e / 0x100_0000, low);
  }

  lemma Cuts(x: nat, m: nat)
    requires m == 0x40 || m == 0x1000 || m == 0x4_0000 || m == 0x100_0000
    ensures x == m * (x / m) + x % m && 0 <= x % m < m
  {
  }
}
