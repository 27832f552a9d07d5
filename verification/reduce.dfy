/** Numbers modulo L, the order of Ed25519's base point. */
module ReduceL {
  import opened Base
  import opened Numbers
  import opened Field25519

  const L: nat := 0x1000_0000_0000_0000_0000_0000_0000_0000_14de_f9de_a2f7_9cd6_5812_631a_5cf5_d3ed
  /** L without its top bit, 2^252. */
  const TAIL: nat := 0x14de_f9de_a2f7_9cd6_5812_631a_5cf5_d3ed
  /** The bytes of L, lowest first. */
  const L0: seq<int> := [0xed, 0xd3, 0xf5, 0x5c]
  const L4: seq<int> := [0x1a, 0x63, 0x12, 0x58]
  const L8: seq<int> := [0xd6, 0x9c, 0xf7, 0xa2]
  const L12: seq<int> := [0xde, 0xf9, 0xde, 0x14]
  const GAP: seq<int> := [0, 0, 0, 0, 0, 0, 0, 0, 0, 0, 0, 0, 0, 0, 0]
  const L_BYTES: seq<int> := L0 + L4 + L8 + L12 + GAP + [0x10]

  // ---- The bytes of L ---------------------------------------------------------------------------

  lemma Four(a: int, b: int, c: int, d: int)
    ensures Val8([a, b, c, d]) == a + 0x100 * b + 0x1_0000 * c + 0x100_0000 * d
  {
    hide Val8, W8;
    Val8Snoc([a, b, c], d);
    Val8Snoc([a, b], c);
    Val8Snoc([a], b);
    ValOne(a);
    assert [a, b, c] + [d] == [a, b, c, d] && [a, b] + [c] == [a, b, c] && [a] + [b] == [a, b];
    W8To3();
  }

  lemma W8To3()
    ensures W8(1) == 0x100 && W8(2) == 0x1_0000 && W8(3) == 0x100_0000
  {
    assert W8(0) == 1 && W8(1) == 0x100 && W8(2) == 0x1_0000;
  }

  lemma W8At()
    ensures W8(4) == 0x1_0000_0000 && W8(8) == 0x1_0000_0000_0000_0000 && W8(12) == 0x1_0000_0000_0000_0000_0000_0000
    ensures W8(16) == 0x1_0000_0000_0000_0000_0000_0000_0000_0000
    ensures W8(31) == 0x100_0000_0000_0000_0000_0000_0000_0000_0000_0000_0000_0000_0000_0000_0000_0000
    ensures W8(32) == POW256
  {
    assert W8(1) == 0x100 * W8(0);
    hide W8;
    W8Sum(1, 1);
    W8Sum(2, 2);
    W8Sum(4, 4);
    W8Sum(8, 4);
    W8Sum(8, 8);
    W8Sum(16, 8);
    W8Sum(24, 4);
    W8Sum(28, 2);
    W8Sum(30, 1);
    W8Sum(16, 16);
  }

  lemma {:induction false} Val8Zeros(n: nat)
    ensures Val8(seq(n, _ => 0)) == 0
  {
    if n > 0 {
      assert seq(n, _ => 0)[1..] == seq(n - 1, _ => 0);
      Val8Zeros(n - 1);
    }
  }

  /** The lowest bytes of L stand for its tail, all of them for L. */
  lemma LValue()
    ensures Val8(L_BYTES[..20]) == TAIL && Val8(L_BYTES) == L && L == TAIL + 0x10 * W8(31)
  {
    hide Val8, W8;
    W8At();
    Four(0xed, 0xd3, 0xf5, 0x5c);
    Four(0x1a, 0x63, 0x12, 0x58);
    Four(0xd6, 0x9c, 0xf7, 0xa2);
    Four(0xde, 0xf9, 0xde, 0x14);
    Val8Concat(L0, L4);
    Val8Concat(L0 + L4, L8);
    Val8Concat(L0 + L4 + L8, L12);
    var low := L0 + L4 + L8 + L12;
    Val8Zeros(4);
    Val8Zeros(15);
    Val8Concat(low, seq(4, _ => 0));
    Val8Concat(low, GAP);
    assert GAP == seq(15, _ => 0);
    assert L_BYTES[..20] == low + seq(4, _ => 0);
    Val8Snoc(low + GAP, 0x10);
  }

  // ---- Folding one limb down --------------------------------------------------------------------

  predicate Byte8(x: int) {
    -128 <= x <= 127
  }

  /** The limbs before limb `i` is folded. */
  ghost predicate Ready(x: seq<int>, i: int) {
    && |x| == 64 && 31 <= i <= 63
    && (forall k | i < k < 64 :: x[k] == 0)
    && (forall k | 0 <= k <= i :: -129 <= x[k] <= 256)
    && (forall k | 0 <= k <= i - 12 :: -128 <= x[k] <= 255)
    && (i < 63 ==> forall k | 0 <= k && i - 31 <= k <= i - 12 :: Byte8(x[k]))
    && (forall k | i - 12 < k <= i && k <= 50 :: -129 <= x[k] <= 128)
  }

  /** Folding limb `i`, after `q` of the limbs below it. */
  ghost predicate Folding(x0: seq<int>, x: seq<int>, i: int, q: nat, carry: int) {
    && |x| == |x0| == 64 && 32 <= i <= 63 && q <= 20
    && (forall k | 0 <= k < 64 && !(i - 32 <= k < i - 32 + q) :: x[k] == x0[k])
    && (forall k | i - 32 <= k < i - 32 + q :: Byte8(x[k]))
    && (q <= 16 ==> -4200 <= carry <= 4200) && (q == 17 ==> -18 <= carry <= 18) && (q >= 18 ==> -1 <= carry <= 1)
    && Val8(x) + W8(i - 32 + q) * carry == Val8(x0) - 16 * (x0[i] * (W8(i - 32) * Val8(L_BYTES[..q])))
  }

  lemma FoldStart(x: seq<int>, i: int)
    requires Ready(x, i) && i >= 32
    ensures Folding(x, x, i, 0, 0)
  {
    assert L_BYTES[..0] == [];
    assert Val8([]) == 0;
    hide Val8, W8;
    Nothing(x[i], W8(i - 32));
  }

  lemma Nothing(x: int, w: int)
    ensures x * (w * 0) == 0 && w * 0 == 0
  {
  }

  lemma LByte(q: nat)
    requires q < 20
    ensures 0 <= L_BYTES[q] <= 255 && (q >= 16 ==> L_BYTES[q] == 0)
  {
  }

  lemma ProductBound(x: int, l: int)
    requires -257 <= x <= 257 && 0 <= l <= 255
    ensures -1048560 <= 16 * (x * l) <= 1048560
  {
    if x >= 0 {
      MulMonoInt(x, l, 257, 255);
    } else {
      MulMonoInt(-x, l, 257, 255);
      assert x * l == -(-x * l);
    }
  }

  lemma MulMonoInt(x: nat, y: nat, b: nat, c: nat)
    requires x <= b && y <= c
    ensures 0 <= x * y <= b * c
  {
    assert b * c - x * y == (b - x) * y + b * (c - y);
  }

  /** The next limb of the fold. */
  lemma FoldNext(x0: seq<int>, x: seq<int>, i: int, q: nat, carry: int, y: int, carry': int)
    requires Ready(x0, i) && Folding(x0, x, i, q, carry) && q < 20
    requires y == x[i - 32 + q] + carry - 16 * (x0[i] * L_BYTES[q]) && carry' == (y + 128) / 256
    ensures Folding(x0, x[i - 32 + q := y - 256 * carry'], i, q + 1, carry')
  {
    hide Val8, W8;
    var j := i - 32 + q;
    FoldBounds(x0[i], x[j], L_BYTES[q], q, carry, y, carry') by {
      LByte(q);
      assert x[j] == x0[j];
    }
    var next := x[j := y - 256 * carry'];
    assert next == x[j := x[j] + (y - 256 * carry' - x[j])];
    Val8Plus(x, j, y - 256 * carry' - x[j]);
    assert L_BYTES[..q + 1] == L_BYTES[..q] + [L_BYTES[q]];
    Val8Snoc(L_BYTES[..q], L_BYTES[q]);
    FoldValue(i, q, x0[i], L_BYTES[q], Val8(L_BYTES[..q]), carry, carry', y, x[j]);
  }

  lemma FoldBounds(xi: int, xj: int, l: int, q: nat, carry: int, y: int, carry': int)
    requires -257 <= xi <= 257 && -128 <= xj <= 255 && 0 <= l <= 255 && (q >= 16 ==> l == 0) && q < 20
    requires (q <= 16 ==> -4200 <= carry <= 4200) && (q == 17 ==> -18 <= carry <= 18) && (q >= 18 ==> -1 <= carry <= 1)
    requires y == xj + carry - 16 * (xi * l) && carry' == (y + 128) / 256
    ensures Byte8(y - 256 * carry')
    ensures (q < 16 ==> -4200 <= carry' <= 4200) && (q == 16 ==> -18 <= carry' <= 18) && (q >= 17 ==> -1 <= carry' <= 1)
  {
    ProductBound(xi, l);
    if q >= 16 {
      assert xi * l == 0;
    }
  }

  lemma FoldValue(i: int, q: nat, xi: int, l: int, v: int, carry: int, carry': int, y: int, xj: int)
    requires i >= 32 && y == xj + carry - 16 * (xi * l)
    ensures W8(i - 32 + q) * (y - 256 * carry' - xj) + W8(i - 32 + q + 1) * carry' - W8(i - 32 + q) * carry
            == -16 * (xi * (W8(i - 32) * (v + W8(q) * l))) + 16 * (xi * (W8(i - 32) * v))
  {
    W8Sum(i - 32, q);
    assert W8(i - 32 + q + 1) == 0x100 * W8(i - 32 + q);
    hide W8;
    var w, u := W8(i - 32), W8(q);
    var z := W8(i - 32 + q);
    assert z == w * u;
    assert z * (y - 256 * carry' - xj) + 0x100 * z * carry' - z * carry == -16 * (z * (xi * l)) by {
      Spread(z, y, carry', xj, carry, xi * l);
    }
    assert w * (v + u * l) == w * v + z * l by {
      Regroup(w, u, l);
    }
    assert xi * (w * v + z * l) == xi * (w * v) + xi * (z * l);
    assert xi * (z * l) == z * (xi * l);
  }

  lemma Spread(z: int, y: int, c: int, x: int, carry: int, p: int)
    requires y == x + carry - 16 * p
    ensures z * (y - 256 * c - x) + 0x100 * z * c - z * carry == -16 * (z * p)
  {
    assert y - 256 * c - x == carry - 16 * p - 256 * c;
    assert z * (carry - 16 * p - 256 * c) == z * carry - 16 * (z * p) - 256 * (z * c);
  }

  /** The fold done: the limb is gone, and the number has changed by a multiple
      of L. */
  lemma FoldDone(x0: seq<int>, x: seq<int>, after: seq<int>, i: int, carry: int)
    requires Ready(x0, i) && Folding(x0, x, i, 20, carry) && after == x[i - 12 := x[i - 12] + carry][i := 0]
    ensures Ready(after, i - 1)
    ensures Val8(after) == Val8(x0) - L * (16 * (x0[i] * W8(i - 32)))
  {
    hide Val8, W8;
    var mid := x[i - 12 := x[i - 12] + carry];
    Val8Plus(x, i - 12, carry);
    assert after == mid[i := mid[i] + -x0[i]];
    Val8Plus(mid, i, -x0[i]);
    LValue();
    W8Sum(i - 32, 32);
    W8At();
    FoldTotal(W8(i - 32), W8(i), x0[i]);
  }

  lemma FoldTotal(w: int, wi: int, xi: int)
    requires wi == w * POW256
    ensures 16 * (xi * (w * TAIL)) + wi * xi == L * (16 * (xi * w))
  {
    assert xi * (w * TAIL) == TAIL * (xi * w);
    assert wi * xi == POW256 * (xi * w);
  }

  /** Folds limb `i` down, in place. */
  method Fold(x: array<int>, i: int)
    requires x.Length == 64 && 32 <= i && Ready(x[..], i)
    modifies x
    ensures Ready(x[..], i - 1)
    ensures Val8(x[..]) == Val8(old(x[..])) - L * (16 * (old(x[i]) * W8(i - 32)))
  {
    hide Val8, W8, Folding, Ready;
    ghost var x0 := x[..];
    FoldStart(x0, i);
    ReadyIs(x0, i);
    var carry := 0;
    var j := i - 32;
    while j < i - 12
      invariant i - 32 <= j <= i - 12
      invariant Folding(x0, x[..], i, j - (i - 32), carry)
    {
      var q := j - (i - 32);
      FoldingIs(x0, x[..], i, q, carry);
      LByte(q);
      ProductBound(x[i], L_BYTES[q]);
      ghost var before := x[..];
      x[j] := I64(x[j] + (carry - I64(16 * (x[i] * L_BYTES[q]))));
      FoldNext(x0, before, i, q, carry, x[j], (x[j] + 128) / 256);
      carry := I64(x[j] + 128) / 256;
      x[j] := I64(x[j] - I64(carry * 256));
      assert x[..] == before[j := x[j]];
      j := j + 1;
    }
    FoldingIs(x0, x[..], i, 20, carry);
    ghost var before := x[..];
    x[j] := I64(x[j] + carry);
    x[i] := 0;
    assert x[..] == before[i - 12 := before[i - 12] + carry][i := 0];
    FoldDone(x0, before, x[..], i, carry);
  }

  lemma ReadyIs(x: seq<int>, i: int)
    requires Ready(x, i)
    ensures |x| == 64 && 31 <= i <= 63 && forall k | 0 <= k <= i :: -129 <= x[k] <= 256
  {
  }

  lemma FoldingIs(x0: seq<int>, x: seq<int>, i: int, q: nat, carry: int)
    requires Ready(x0, i) && Folding(x0, x, i, q, carry)
    ensures |x| == 64 && -4200 <= carry <= 4200 && x[i] == x0[i] && -129 <= x[i] <= 256
    ensures forall k | 0 <= k < 64 :: -129 <= x[k] <= 256
    ensures q == 20 ==> -1 <= carry <= 1
  {
    hide Val8;
  }

  // ---- The last steps ---------------------------------------------------------------------------

  /** The number is now in the lowest 32 limbs. */
  ghost predicate Folded(x: seq<int>) {
    |x| == 64 && (forall k | 0 <= k < 32 :: -129 <= x[k] <= 128) && (forall k | 32 <= k < 64 :: x[k] == 0)
  }

  lemma ReadyFolded(x: seq<int>)
    requires Ready(x, 31)
    ensures Folded(x) && Val8(x) == Val8(x[..32])
  {
    hide Val8, W8;
    var high := x[32..];
    assert x == x[..32] + high && high == seq(32, _ => 0);
    Val8Concat(x[..32], high);
    Val8Zeros(32);
    Nothing(0, W8(32));
  }

  lemma {:induction false} Val8Bound(s: seq<int>)
    requires forall k | 0 <= k < |s| :: -129 <= s[k] <= 129
    ensures -129 * (W8(|s|) - 1) <= 255 * Val8(s) <= 129 * (W8(|s|) - 1)
  {
    if s != [] {
      Val8Bound(s[1..]);
    }
  }

  /** With L taken away as often as the top limb says, the number is within L of
      zero. */
  lemma NearZero(x: seq<int>)
    requires Folded(x)
    ensures -(L as int) < Val8(x[..32]) - x[31] / 16 * L < L
  {
    hide Val8, W8;
    assert x[..32] == x[..31] + [x[31]];
    Val8Snoc(x[..31], x[31]);
    Val8Bound(x[..31]);
    W8At();
    LValue();
    var top := x[31] / 16;
    assert x[31] == 16 * top + x[31] % 16;
    assert top * L == top * TAIL + 16 * top * W8(31);
    assert -9 <= top <= 8;
  }

  /** Taking `top` times L away, after limb `i`. */
  ghost predicate Settling(x0: seq<int>, x: seq<int>, i: nat, carry: int, top: int) {
    && |x| == |x0| == 64 && i <= 32 && -20 <= carry <= 20
    && (forall k | 0 <= k < i :: 0 <= x[k] <= 255) && (forall k | i <= k < 64 :: x[k] == x0[k])
    && Val8(x[..i]) + W8(i) * carry == Val8(x0[..i]) - top * Val8(L_BYTES[..i])
  }

  lemma SettleNext(x0: seq<int>, x: seq<int>, i: nat, carry: int, top: int, y: int)
    requires Folded(x0) && Settling(x0, x, i, carry, top) && i < 32 && -9 <= top <= 8
    requires y == x[i] + carry - top * L_BYTES[i]
    ensures Settling(x0, x[i := y % 256], i + 1, y / 256, top)
  {
    hide Val8, W8;
    LRange(i);
    MulSmallTop(top, L_BYTES[i]);
    var next := x[i := y % 256];
    assert next[..i + 1] == x[..i] + [y % 256] && x0[..i + 1] == x0[..i] + [x0[i]];
    assert L_BYTES[..i + 1] == L_BYTES[..i] + [L_BYTES[i]];
    Val8Snoc(x[..i], y % 256);
    Val8Snoc(x0[..i], x0[i]);
    Val8Snoc(L_BYTES[..i], L_BYTES[i]);
    SettleValue(i, y, x0[i], carry, top, L_BYTES[i], Val8(L_BYTES[..i]));
  }

  lemma LRange(i: nat)
    requires i < 32
    ensures |L_BYTES| == 32 && 0 <= L_BYTES[i] <= 255
  {
  }

  lemma MulSmallTop(top: int, l: int)
    requires -9 <= top <= 8 && 0 <= l <= 255
    ensures -2295 <= top * l <= 2295
  {
    if top >= 0 {
      MulMonoInt(top, l, 9, 255);
    } else {
      MulMonoInt(-top, l, 9, 255);
      assert top * l == -(-top * l);
    }
  }

  lemma SettleValue(i: nat, y: int, x: int, carry: int, top: int, l: int, v: int)
    requires y == x + carry - top * l
    ensures W8(i) * (y % 256) + W8(i + 1) * (y / 256) - W8(i) * carry == W8(i) * x - top * (v + W8(i) * l) + top * v
  {
    assert W8(i + 1) == 0x100 * W8(i);
    hide W8;
    var w := W8(i);
    Remake(w, x + carry, -(top * l));
    assert top * (v + w * l) == top * v + w * (top * l);
    assert w * (x + carry) + w * -(top * l) == w * x + w * carry - w * (top * l);
  }

  /** The first of the three last passes. */
  method Settle(x: array<int>) returns (carry: int)
    requires x.Length == 64 && Folded(x[..])
    modifies x
    ensures (forall k | 0 <= k < 32 :: 0 <= x[k] <= 255) && (forall k | 32 <= k < 64 :: x[k] == 0)
    ensures var v := Val8(old(x[..32])) - old(x[31]) / 16 * L;
            Val8(x[..32]) + W8(32) * carry == v && carry == if v < 0 then -1 else 0
  {
    hide Val8, W8, Settling;
    ghost var x0 := x[..];
    NearZero(x0);
    LValue();
    carry := 0;
    var top := x[31] / 16;
    SettleStart(x0, top);
    for i := 0 to 32
      invariant Settling(x0, x[..], i, carry, top)
    {
      ghost var before := x[..];
      SettlingIs(x0, before, i, carry, top);
      LRange(i);
      MulSmallTop(top, L_BYTES[i]);
      var value := I64(x[i] + (carry - I64(top * L_BYTES[i])));
      SettleNext(x0, before, i, carry, top, value);
      carry := value / 256;
      x[i] := value % 256;
      assert x[..] == before[i := value % 256];
    }
    SettlingIs(x0, x[..], 32, carry, top);
    SettleEnd(x0, x[..], carry, top);
  }

  lemma SettleStart(x: seq<int>, top: int)
    requires |x| == 64
    ensures Settling(x, x, 0, 0, top)
  {
    assert x[..0] == [] && L_BYTES[..0] == [] && Val8([]) == 0;
    hide Val8, W8;
    Nothing(top, W8(0));
  }

  lemma SettlingIs(x0: seq<int>, x: seq<int>, i: nat, carry: int, top: int)
    requires Settling(x0, x, i, carry, top)
    ensures |x| == 64 && -20 <= carry <= 20
    ensures (forall k | 0 <= k < i :: 0 <= x[k] <= 255) && (forall k | i <= k < 64 :: x[k] == x0[k])
  {
    hide Val8;
  }

  lemma SettleEnd(x0: seq<int>, x: seq<int>, carry: int, top: int)
    requires Folded(x0) && Settling(x0, x, 32, carry, top) && top == x0[31] / 16
    ensures var v := Val8(x0[..32]) - x0[31] / 16 * L;
            Val8(x[..32]) + W8(32) * carry == v && carry == if v < 0 then -1 else 0
  {
    hide Val8, W8;
    NearZero(x0);
    LValue();
    W8At();
    assert L_BYTES[..32] == L_BYTES;
    Val8Range(x[..32]);
  }

  /** Adds L back when the pass before went below zero. */
  method AddBack(x: array<int>, carry: int)
    requires x.Length == 64 && -1 <= carry <= 0 && forall k | 0 <= k < 32 :: 0 <= x[k] <= 255
    modifies x
    ensures forall k | 0 <= k < 32 :: 0 <= x[k] <= 510
    ensures forall k | 32 <= k < 64 :: x[k] == old(x[k])
    ensures Val8(x[..32]) == Val8(old(x[..32])) - carry * L
  {
    hide Val8, W8;
    ghost var x0 := x[..];
    LValue();
    for i := 0 to 32
      invariant forall k | 0 <= k < i :: x[k] == x0[k] - carry * L_BYTES[k]
      invariant forall k | i <= k < 64 :: x[k] == x0[k]
    {
      LRange(i);
      x[i] := I64(x[i] - I64(carry * L_BYTES[i]));
    }
    forall k | 0 <= k < 32
      ensures 0 <= x[k] <= 510
    {
      LRange(k);
    }
    Combination(x[..32], x0[..32], L_BYTES, carry);
    assert x0[..32] == old(x[..32]);
  }

  lemma {:induction false} Combination(s: seq<int>, a: seq<int>, b: seq<int>, c: int)
    requires |s| == |a| == |b| && forall k | 0 <= k < |s| :: s[k] == a[k] - c * b[k]
    ensures Val8(s) == Val8(a) - c * Val8(b)
  {
    if s != [] {
      Combination(s[1..], a[1..], b[1..], c);
      assert c * (b[0] + 0x100 * Val8(b[1..])) == c * b[0] + 0x100 * (c * Val8(b[1..]));
    }
  }

  /** The bytes of what is left. */
  method Emit(x: array<int>) returns (out: seq<byte>)
    requires x.Length == 64 && (forall k | 0 <= k < 32 :: 0 <= x[k] <= 510) && x[32] == 0
    modifies x
    ensures |out| == 32 && exists over: int :: Val8(out) + W8(32) * over == Val8(old(x[..32]))
  {
    hide Val8, W8;
    ghost var x0 := x[..];
    out := [];
    ghost var over := 0;
    assert x0[..0] == [];
    for i := 0 to 32
      invariant |out| == i && 0 <= over <= 2
      invariant x[i] == x0[i] + over && forall k | i < k < 64 :: x[k] == x0[k]
      invariant Val8(out) + W8(i) * over == Val8(x0[..i])
    {
      EmitNext(out, x0, i, over);
      x[i + 1] := I64(x[i + 1] + x[i] / 256);
      out := out + [x[i] % 256];
      over := x[i] / 256;
    }
    assert x0[..32] == old(x[..32]);
  }

  lemma Remake(w: int, x: int, c: int)
    ensures w * ((x + c) % 256) + 0x100 * w * ((x + c) / 256) == w * x + w * c
  {
    var r, q := (x + c) % 256, (x + c) / 256;
    assert w * (r + 256 * q) == w * r + w * (256 * q);
    assert w * (256 * q) == 0x100 * w * q;
    assert w * (x + c) == w * x + w * c;
  }

  lemma EmitNext(out: seq<byte>, x: seq<int>, i: nat, over: int)
    requires |out| == i < |x| && Val8(out) + W8(i) * over == Val8(x[..i])
    ensures var y := x[i] + over; Val8(out + [y % 256]) + W8(i + 1) * (y / 256) == Val8(x[..i + 1])
  {
    assert W8(i + 1) == 0x100 * W8(i);
    hide Val8, W8;
    var y := x[i] + over;
    assert x[..i + 1] == x[..i] + [x[i]];
    Val8Snoc(x[..i], x[i]);
    Val8Snoc(out, y % 256);
    Remake(W8(i), x[i], over);
  }

  /** A 512-bit number reduced modulo L: the 32 bytes of the number below L that
      it leaves. */
  method Reduce(hash: seq<byte>) returns (out: seq<byte>)
    requires |hash| == 64
    ensures |out| == 32 && Val8(out) == Val8(hash) % L
  {
    hide Val8, W8, Ready, Folded;
    var x := new int[64](i requires 0 <= i < 64 => hash[i]);
    assert x[..] == hash;
    ReadyFirst(x[..]);
    ghost var total := 0;
    var i := 63;
    while i >= 32
      invariant 31 <= i <= 63 && Ready(x[..], i)
      invariant Val8(x[..]) == Val8(hash) - L * total
    {
      total := total + 16 * (x[i] * W8(i - 32));
      Fold(x, i);
      i := i - 1;
    }
    ReadyFolded(x[..]);
    ghost var x0 := x[..];
    NearZero(x0);
    var carry := Settle(x);
    ghost var v := Val8(x0[..32]) - x0[31] / 16 * L;
    AddBack(x, carry);
    ghost var last := Val8(x[..32]);
    out := Emit(x);
    ghost var over: int :| Val8(out) + W8(32) * over == last;
    Val8Range(out);
    W8At();
    Landed(Val8(out), over, v, carry, Val8(hash), total + x0[31] / 16);
  }

  lemma ReadyFirst(x: seq<int>)
    requires |x| == 64 && forall k | 0 <= k < 64 :: 0 <= x[k] <= 255
    ensures Ready(x, 63)
  {
  }

  lemma Landed(r: int, over: int, v: int, carry: int, hash: int, k: int)
    requires 0 <= r < POW256 && -(L as int) < v < L && carry == (if v < 0 then -1 else 0)
    requires r + POW256 * over == v - POW256 * carry - carry * L && v == hash - L * k
    ensures r == hash % L
  {
    assert over == if v < 0 then 1 else 0;
    assert r == if v < 0 then v + L else v;
  }

  // ---- canonical --------------------------------------------------------------------------------

  /** Whether the 32 bytes of a signature's S are below L. */
  method Canonical(s: seq<byte>) returns (ok: bool)
    requires |s| == 32
    ensures ok <==> Val8(s) < L
  {
    hide Val8, W8;
    LValue();
    var i := 32;
    assert s[32..] == L_BYTES[32..] == [];
    while i > 0
      invariant 0 <= i <= 32 && s[i..] == L_BYTES[i..]
    {
      i := i - 1;
      LRange(i);
      if s[i] != L_BYTES[i] {
        Decides(s, i);
        return s[i] < L_BYTES[i];
      }
      assert s[i..] == [s[i]] + s[i + 1..] && L_BYTES[i..] == [L_BYTES[i]] + L_BYTES[i + 1..];
    }
    assert s == L_BYTES;
    ok := false;
  }

  /** The highest byte that differs decides which number is larger. */
  lemma Decides(s: seq<byte>, i: nat)
    requires |s| == 32 && i < 32 && s[i + 1..] == L_BYTES[i + 1..] && s[i] != L_BYTES[i]
    ensures Val8(s) < L <==> s[i] < L_BYTES[i]
  {
    hide Val8, W8;
    LValue();
    LBytesRange(i);
    var rest := Val8(s[i + 1..]);
    Split3(s, i);
    Split3(L_BYTES, i);
    Val8Range(s[..i]);
    Val8Range(L_BYTES[..i]);
    var w := W8(i);
    if s[i] < L_BYTES[i] {
      assert w * s[i] + w <= w * L_BYTES[i] by {
        Step1(w, s[i], L_BYTES[i]);
      }
    } else {
      assert w * L_BYTES[i] + w <= w * s[i] by {
        Step1(w, L_BYTES[i], s[i]);
      }
    }
  }

  lemma LBytesRange(i: nat)
    requires i < 32
    ensures |L_BYTES| == 32 && forall k | 0 <= k < i :: 0 <= L_BYTES[..i][k] < 0x100
  {
    forall k | 0 <= k < i
      ensures 0 <= L_BYTES[..i][k] < 0x100
    {
      LRange(k);
    }
  }

  lemma Step1(w: nat, x: int, y: int)
    requires x < y
    ensures w * x + w <= w * y
  {
    assert w * y - w * x - w == w * (y - x - 1) >= 0 by {
      MulMonoInt(w, y - x - 1, w, y - x - 1);
    }
  }

  lemma Split3(s: seq<int>, i: nat)
    requires i < |s|
    ensures Val8(s) == Val8(s[..i]) + W8(i) * s[i] + W8(i + 1) * Val8(s[i + 1..])
  {
    hide Val8, W8;
    assert s == s[..i] + [s[i]] + s[i + 1..];
    Val8Concat(s[..i] + [s[i]], s[i + 1..]);
    Val8Snoc(s[..i], s[i]);
  }

  /** L as section 5.1 of RFC 8032 writes it. */
  lemma OrderIs()
    ensures L == 0x1000_0000_0000_0000_0000_0000_0000_0000_0000_0000_0000_0000_0000_0000_0000_0000
                 + 27742317777372353535851937790883648493
  {
  }
}
