/** The loops of Ed25519: the power that gives square roots, point addition as
    section 5.1.4 of RFC 8032 writes it, and the swap ladder. */
module Ed25519 {
  import opened Base
  import opened Numbers
  import opened Field25519
  import opened X25519

  // ---- pow2523 ----------------------------------------------------------------------------------

  /** The exponent reached before bit `i`. */
  function RootExponent(i: nat): nat
    requires i <= 251
    decreases 251 - i
  {
    if i == 251 then 1 else 2 * RootExponent(i + 1) + if i == 1 then 0 else 1
  }

  lemma {:induction false} RootOnes(i: nat)
    requires 2 <= i <= 251
    ensures RootExponent(i) == Pow2(252 - i) - 1
    decreases 251 - i
  {
    if i == 251 {
      Pow2Of1();
    } else {
      RootOnes(i + 1);
    }
  }

  /** All bits taken, the exponent is (p - 5) / 8. */
  lemma RootAll()
    ensures RootExponent(0) == (P - 5) / 8
  {
    hide Pow2;
    RootOnes(2);
    Pow2At250();
    assert RootExponent(1) == 2 * RootExponent(2);
    assert RootExponent(0) == 2 * RootExponent(1) + 1;
  }

  lemma RootStep(i: nat)
    requires i < 251
    ensures RootExponent(i) == 2 * RootExponent(i + 1) + if i == 1 then 0 else 1
    ensures RootExponent(251) == 1
  {
  }

  /** a to the (p - 5) / 8, which square roots are made of. */
  method Pow2523(a: array<int>) returns (c: array<int>)
    requires a.Length == 16 && Loose(a[..])
    ensures fresh(c) && c.Length == 16 && Loose(c[..]) && Residue(c[..]) == Power(Residue(a[..]), (P - 5) / 8)
  {
    hide Power, RootExponent, Residue, Tight, Loose, Mul;
    c := Constant(0);
    var copy := Constant(0);
    Copy(c, a);
    RootStep(0);
    PowerOne(Residue(a[..]));
    var bit := 251;
    while bit > 0
      invariant 0 <= bit <= 251 && Loose(c[..]) && fresh(c)
      invariant Residue(c[..]) == Power(Residue(a[..]), RootExponent(bit))
    {
      bit := bit - 1;
      RootStep(bit);
      PowerStep(Residue(a[..]), RootExponent(bit + 1), if bit == 1 then 0 else 1);
      Copy(copy, c);
      Square(c, copy);
      TightLoose(c[..]);
      if bit != 1 {
        Copy(copy, c);
        Multiply(c, copy, a);
        TightLoose(c[..]);
      }
    }
    RootAll();
  }

  // ---- point_add --------------------------------------------------------------------------------

  /** Four residues: X, Y, Z and T. */
  datatype Point = Point(x: nat, y: nat, z: nat, t: nat)

  /** Addition in extended coordinates, as section 5.1.4 of RFC 8032 writes it;
      `d2` is twice the constant of the curve. */
  function Added(d2: nat, p: Point, q: Point): Point {
    var a := Mul(Difference(p.y, p.x), Difference(q.y, q.x));
    var b := Mul(Sum(p.y, p.x), Sum(q.y, q.x));
    var c := Mul(Mul(p.t, d2), q.t);
    var d := Mul(Mul(p.z, 2), q.z);
    var e := Difference(b, a);
    var f := Difference(d, c);
    var g := Sum(d, c);
    var h := Sum(b, a);
    Point(Mul(e, f), Mul(g, h), Mul(f, g), Mul(e, h))
  }

  /** -121665 / 121666, the constant of the curve, doubled: limbs from the lowest. */
  const D2_0: seq<int> := [0xf159, 0x26b2, 0x9b94, 0xebd6]
  const D2_4: seq<int> := [0xb156, 0x8283, 0x149a, 0x00e0]
  const D2_8: seq<int> := [0xd130, 0xeef3, 0x80f2, 0x198e]
  const D2_12: seq<int> := [0xfce7, 0x56df, 0xd9dc, 0x2406]
  const D2_LIMBS: seq<int> := D2_0 + D2_4 + D2_8 + D2_12
  const D2: nat := 0x2406_d9dc_56df_fce7_198e_80f2_eef3_d130_00e0_149a_8283_b156_ebd6_9b94_26b2_f159

  lemma FourLimbs(a: int, b: int, c: int, d: int)
    ensures Val([a, b, c, d]) == a + 0x1_0000 * b + 0x1_0000_0000 * c + 0x1_0000_0000_0000 * d
  {
    hide Val, W16;
    ValSnoc([a, b, c], d);
    ValSnoc([a, b], c);
    ValSnoc([a], b);
    ValOne(a);
    assert [a, b, c] + [d] == [a, b, c, d] && [a, b] + [c] == [a, b, c] && [a] + [b] == [a, b];
    W16To3();
  }

  lemma W16To3()
    ensures W16(1) == 0x1_0000 && W16(2) == 0x1_0000_0000 && W16(3) == 0x1_0000_0000_0000
    ensures W16(4) == 0x1_0000_0000_0000_0000
  {
    assert W16(0) == 1 && W16(1) == 0x1_0000 && W16(2) == 0x1_0000_0000 && W16(3) == 0x1_0000_0000_0000;
  }

  /** The stored limbs stand for twice d, where d * 121666 is -121665. */
  lemma D2Is()
    ensures |D2_LIMBS| == 16 && Tight(D2_LIMBS) && Residue(D2_LIMBS) == D2 < P
    ensures Mul(D2, 121666) == Difference(0, Sum(121665, 121665))
  {
    hide Val, W16;
    FourLimbs(0xf159, 0x26b2, 0x9b94, 0xebd6);
    FourLimbs(0xb156, 0x8283, 0x149a, 0x00e0);
    FourLimbs(0xd130, 0xeef3, 0x80f2, 0x198e);
    FourLimbs(0xfce7, 0x56df, 0xd9dc, 0x2406);
    ValConcat(D2_0, D2_4);
    ValConcat(D2_0 + D2_4, D2_8);
    ValConcat(D2_0 + D2_4 + D2_8, D2_12);
    W16To3();
    W16Sum(4, 4);
    W16Sum(8, 4);
  }

  /** The four coordinates as they are held. */
  class Coordinates {
    var x: array<int>
    var y: array<int>
    var z: array<int>
    var t: array<int>

    constructor (x0: int, y0: int, z0: int, t0: int)
      requires 0 <= x0 < 2 && 0 <= y0 < 2 && 0 <= z0 < 2 && 0 <= t0 < 2
      ensures Valid() && fresh(Repr()) && Value() == Point(x0, y0, z0, t0)
    {
      x := new int[16](i => if i == 0 then x0 else 0);
      y := new int[16](i => if i == 0 then y0 else 0);
      z := new int[16](i => if i == 0 then z0 else 0);
      t := new int[16](i => if i == 0 then t0 else 0);
      new;
      Small(x[..], x0);
      Small(y[..], y0);
      Small(z[..], z0);
      Small(t[..], t0);
    }

    ghost function Repr(): set<array<int>>
      reads this
    {
      {x, y, z, t}
    }

    ghost predicate Valid()
      reads this, Repr()
    {
      && x.Length == y.Length == z.Length == t.Length == 16
      && x != y && x != z && x != t && y != z && y != t && z != t
      && Tight(x[..]) && Tight(y[..]) && Tight(z[..]) && Tight(t[..])
    }

    ghost function Value(): Point
      reads this, Repr()
    {
      Point(Residue(x[..]), Residue(y[..]), Residue(z[..]), Residue(t[..]))
    }
  }

  /** a * b, in limbs of its own. */
  method Product(a: array<int>, b: array<int>) returns (out: array<int>)
    requires a.Length == b.Length == 16 && Loose(a[..]) && Loose(b[..])
    ensures fresh(out) && out.Length == 16 && Tight(out[..]) && Residue(out[..]) == Mul(Residue(a[..]), Residue(b[..]))
  {
    out := Constant(0);
    Multiply(out, a, b);
  }

  /** a + b, or a - b: once, and twice over, within what a product takes. */
  method Combined(a: array<int>, b: array<int>, minus: bool) returns (out: array<int>)
    requires a.Length == b.Length == 16 && Within(a[..], 0x2_004A) && Tight(b[..])
    ensures fresh(out) && out.Length == 16 && Loose(out[..]) && (Within(a[..], 0x1_0025) ==> Within(out[..], 0x2_004A))
    ensures Residue(out[..]) == if minus then Difference(Residue(a[..]), Residue(b[..])) else Sum(Residue(a[..]),
            Residue(b[..]))
  {
    hide Residue;
    out := Constant(0);
    TightLoose(b[..]);
    if minus {
      Subtract(out, a, b);
    } else {
      Add(out, a, b);
    }
  }

  lemma WithinMore(s: seq<int>, a: int, b: int)
    requires Within(s, a) && a <= b
    ensures Within(s, b)
  {
  }

  /** The middle of an addition: what the four products are made of. */
  method Pieces(p: Coordinates, q: Coordinates, d2: array<int>) returns (e: array<int>, f: array<int>, g: array<int>,
      h: array<int>)
    requires p.Valid() && q.Valid() && d2.Length == 16 && Tight(d2[..])
    ensures e.Length == f.Length == g.Length == h.Length == 16 && Loose(e[..]) && Loose(f[..]) && Loose(g[..])
    ensures Loose(h[..])
    ensures var (v, w) := (p.Value(), q.Value());
            var a := Mul(Difference(v.y, v.x), Difference(w.y, w.x));
            var b := Mul(Sum(v.x, v.y), Sum(w.x, w.y));
            var c := Mul(Mul(v.t, w.t), Residue(d2[..]));
            var zz := Mul(v.z, w.z);
            var d := Sum(zz, zz);
            Residue(e[..]) == Difference(b, a) && Residue(f[..]) == Difference(d, c) && Residue(g[..]) == Sum(d, c)
                && Residue(h[..]) == Sum(b, a)
  {
    hide Residue, Tight, Loose, Within, Mul, Sum, Difference;
    TightAll(p);
    TightAll(q);
    TightLoose(d2[..]);
    var p10 := Combined(p.y, p.x, true);
    var q10 := Combined(q.y, q.x, true);
    var a := Product(p10, q10);
    var p01 := Combined(p.x, p.y, false);
    var q01 := Combined(q.x, q.y, false);
    var b := Product(p01, q01);
    var tt := Product(p.t, q.t);
    TightLoose(tt[..]);
    var c := Product(tt, d2);
    var zz := Product(p.z, q.z);
    TightLoose(zz[..]);
    TightLoose(b[..]);
    WithinMore(zz[..], 0x1_0025, 0x2_004A);
    WithinMore(b[..], 0x1_0025, 0x2_004A);
    var d := Combined(zz, zz, false);
    e := Combined(b, a, true);
    f := Combined(d, c, true);
    g := Combined(d, c, false);
    h := Combined(b, a, false);
  }

  lemma TightAll(p: Coordinates)
    requires p.Valid()
    ensures Loose(p.x[..]) && Loose(p.y[..]) && Loose(p.z[..]) && Loose(p.t[..])
    ensures Within(p.x[..], 0x2_004A) && Within(p.y[..], 0x2_004A) && Within(p.x[..], 0x1_0025)
    ensures Within(p.y[..], 0x1_0025)
    ensures Tight(p.x[..]) && Tight(p.y[..]) && Tight(p.z[..]) && Tight(p.t[..])
  {
  }

  /** The pieces as they are computed are those of the RFC. */
  lemma AddedIs(v: Point, w: Point, d2: nat)
    ensures var a := Mul(Difference(v.y, v.x), Difference(w.y, w.x));
            var b := Mul(Sum(v.x, v.y), Sum(w.x, w.y));
            var c := Mul(Mul(v.t, w.t), d2);
            var zz := Mul(v.z, w.z);
            var d := Sum(zz, zz);
            var (e, f, g, h) := (Difference(b, a), Difference(d, c), Sum(d, c), Sum(b, a));
            Added(d2, v, w) == Point(Mul(e, f), Mul(h, g), Mul(g, f), Mul(e, h))
  {
    hide Mul, Sum, Difference;
    SumCommutes(v.x, v.y);
    SumCommutes(w.x, w.y);
    MulAssociates(v.t, w.t, d2);
    MulCommutes(w.t, d2);
    MulAssociates(v.t, d2, w.t);
    Doubled(v.z, w.z);
    var (g, h) := (Sum(Sum(Mul(v.z, w.z), Mul(v.z, w.z)), Mul(Mul(v.t, w.t), d2)),
                   Sum(Mul(Sum(v.x, v.y), Sum(w.x, w.y)), Mul(Difference(v.y, v.x), Difference(w.y, w.x))));
    MulCommutes(g, h);
    MulCommutes(Difference(Sum(Mul(v.z, w.z), Mul(v.z, w.z)), Mul(Mul(v.t, w.t), d2)), g);
  }

  lemma Doubled(x: nat, y: nat)
    ensures Mul(Mul(x, 2), y) == Sum(Mul(x, y), Mul(x, y))
  {
    hide Mul;
    MulAssociates(x, 2, y);
    MulCommutes(2, y);
    MulAssociates(x, y, 2);
    MulIs(Mul(x, y), 2, Mul(x, y) + Mul(x, y));
  }

  /** `p` ends up as `Added` of the two points, `q` as it was. */
  method PointAdd(p: Coordinates, q: Coordinates, d2: array<int>)
    requires p.Valid() && q.Valid() && p != q && d2.Length == 16 && Tight(d2[..])
    modifies p
    ensures p.Valid() && fresh(p.Repr()) && p.Value() == Added(Residue(d2[..]), old(p.Value()), old(q.Value()))
  {
    hide Residue, Tight, Loose, Mul, Sum, Difference, Added;
    AddedIs(p.Value(), q.Value(), Residue(d2[..]));
    var e, f, g, h := Pieces(p, q, d2);
    var x := Product(e, f);
    var y := Product(h, g);
    var z := Product(g, f);
    var t := Product(e, h);
    p.x, p.y, p.z, p.t := x, y, z, t;
  }

  method PointSwap(p: Coordinates, q: Coordinates, bit: nat)
    requires p.Valid() && q.Valid() && p.Repr() !! q.Repr() && bit <= 1
    modifies p.Repr(), q.Repr()
    ensures p.Valid() && q.Valid() && p.Repr() == old(p.Repr()) && q.Repr() == old(q.Repr())
    ensures p.Value() == if bit == 1 then old(q.Value()) else old(p.Value())
    ensures q.Value() == if bit == 1 then old(p.Value()) else old(q.Value())
  {
    hide Residue;
    ConditionalSwap(p.x, q.x, bit);
    ConditionalSwap(p.y, q.y, bit);
    ConditionalSwap(p.z, q.z, bit);
    ConditionalSwap(p.t, q.t, bit);
  }

  // ---- The swap ladder --------------------------------------------------------------------------

  /** The pair after the bits from 255 down to `i`: swap, q + p, 2p, swap back. */
  function Swaps<T>(add: (T, T) -> T, zero: T, q: T, k: nat, i: nat): (T, T)
    requires i <= 256
    decreases 256 - i
  {
    if i == 256 then (zero, q)
    else
      var (a, b) := Swaps(add, zero, q, k, i + 1);
      if BitOf(k, i) == 1 then (add(a, b), add(b, b)) else (add(a, a), add(b, a))
  }

  /** `q` added up `n` times. */
  function Multiple<T>(add: (T, T) -> T, zero: T, q: T, n: nat): T {
    if n == 0 then zero else add(q, Multiple(add, zero, q, n - 1))
  }

  ghost predicate CommutativeMonoid<T(!new)>(add: (T, T) -> T, zero: T) {
    && (forall a :: add(zero, a) == a)
    && (forall a, b :: add(a, b) == add(b, a))
    && (forall a, b, c :: add(add(a, b), c) == add(a, add(b, c)))
  }

  lemma {:induction false} MultipleSum<T(!new)>(add: (T, T) -> T, zero: T, q: T, m: nat, n: nat)
    requires CommutativeMonoid(add, zero)
    ensures add(Multiple(add, zero, q, m), Multiple(add, zero, q, n)) == Multiple(add, zero, q, m + n)
  {
    hide CommutativeMonoid;
    if m > 0 {
      MultipleSum(add, zero, q, m - 1, n);
      Associative(add, zero, q, Multiple(add, zero, q, m - 1), Multiple(add, zero, q, n));
    } else {
      Unit(add, zero, Multiple(add, zero, q, n));
    }
  }

  lemma Associative<T(!new)>(add: (T, T) -> T, zero: T, a: T, b: T, c: T)
    requires CommutativeMonoid(add, zero)
    ensures add(add(a, b), c) == add(a, add(b, c))
  {
  }

  lemma Unit<T(!new)>(add: (T, T) -> T, zero: T, a: T)
    requires CommutativeMonoid(add, zero)
    ensures add(zero, a) == a == add(a, zero)
  {
  }

  lemma ShiftNext(k: nat, i: nat)
    ensures Shift(k, i) == 2 * Shift(k, i + 1) + BitOf(k, i)
  {
    hide Shift;
    ShiftSum(k, i, 1);
    ShiftOne(Shift(k, i));
  }

  lemma ShiftOne(x: nat)
    ensures Shift(x, 1) == x / 2
  {
    assert Shift(x / 2, 0) == x / 2;
  }

  /** The pair is always n and n + 1 times q, where n is the bits taken so far. */
  lemma {:induction false} SwapsAre<T(!new)>(add: (T, T) -> T, zero: T, q: T, k: nat, i: nat)
    requires CommutativeMonoid(add, zero) && i <= 256 && Shift(k, 256) == 0
    ensures Swaps(add, zero, q, k, i) == (Multiple(add, zero, q, Shift(k, i)), Multiple(add, zero, q, Shift(k, i) + 1))
    decreases 256 - i
  {
    hide Shift, BitOf, CommutativeMonoid, Multiple, Swaps;
    if i == 256 {
      MultipleOne(add, zero, q);
      SwapsStart(add, zero, q, k);
    } else {
      SwapsAre(add, zero, q, k, i + 1);
      ShiftNext(k, i);
      SwapsNext(add, zero, q, k, i);
      var n := Shift(k, i + 1);
      MultipleSum(add, zero, q, n, n);
      MultipleSum(add, zero, q, n, n + 1);
      MultipleSum(add, zero, q, n + 1, n);
      MultipleSum(add, zero, q, n + 1, n + 1);
      assert n + (n + 1) == 2 * n + 1 && n + 1 + n == 2 * n + 1 && n + 1 + (n + 1) == 2 * n + 2;
    }
  }

  lemma MultipleOne<T(!new)>(add: (T, T) -> T, zero: T, q: T)
    requires CommutativeMonoid(add, zero)
    ensures Multiple(add, zero, q, 0) == zero && Multiple(add, zero, q, 1) == q
  {
    hide CommutativeMonoid;
    Unit(add, zero, q);
    assert Multiple(add, zero, q, 1) == add(q, Multiple(add, zero, q, 0));
  }

  lemma {:induction false} ShiftAll(k: nat, n: nat)
    requires k < Pow2(n)
    ensures Shift(k, n) == 0
  {
    if n > 0 {
      ShiftAll(k / 2, n - 1);
    }
  }

  /** A reading of some elements as those of a monoid: the ones that are `on`
      are closed under the addition, and `h` takes it to the monoid's. */
  ghost predicate Reads<T(!new), U>(add: (T, T) -> T, zero: T, on: T -> bool, other: (U, U) -> U, unit: U, h: T -> U) {
    && on(zero) && h(zero) == unit
    && forall a, b | on(a) && on(b) :: on(add(a, b)) && h(add(a, b)) == other(h(a), h(b))
  }

  /** What the ladder computes is carried over by such a reading. */
  lemma {:induction false} SwapsMapped<T(!new), U>(add: (T, T) -> T, zero: T, on: T -> bool, other: (U, U) -> U,
      unit: U, h: T -> U,
                                                   q: T, k: nat, i: nat)
    requires i <= 256 && Reads(add, zero, on, other, unit, h) && on(q)
    ensures var (a, b) := Swaps(add, zero, q, k, i);
            on(a) && on(b) && (h(a), h(b)) == Swaps(other, unit, h(q), k, i)
    decreases 256 - i
  {
    hide BitOf;
    if i < 256 {
      SwapsMapped(add, zero, on, other, unit, h, q, k, i + 1);
    }
  }

  /** The ladder of Ed25519 yields the k-fold sum: under any reading of the
      points of a set, closed under the formulas, as elements of a commutative
      monoid whose addition the formulas carry out, it is [k]q for every 256-bit
      k and every point of the set. */
  lemma LadderSums<T(!new), U(!new)>(add: (T, T) -> T, zero: T, on: T -> bool, other: (U, U) -> U, unit: U, h: T -> U,
      q: T, k: nat)
    requires CommutativeMonoid(other, unit) && Reads(add, zero, on, other, unit, h) && on(q) && k < Pow2(256)
    ensures on(Swaps(add, zero, q, k, 0).0) && h(Swaps(add, zero, q, k, 0).0) == Multiple(other, unit, h(q), k)
  {
    hide Shift, CommutativeMonoid, Reads;
    ShiftAll(k, 256);
    SwapsMapped(add, zero, on, other, unit, h, q, k, 0);
    SwapsAre(other, unit, h(q), k, 0);
    ShiftNone(k);
  }

  lemma ShiftNone(k: nat)
    ensures Shift(k, 0) == k
  {
  }

  const NEUTRAL: Point := Point(0, 1, 1, 0)

  function AddedTo(d2: nat): (Point, Point) -> Point {
    (a, b) => Added(d2, a, b)
  }

  method Duplicate(p: Coordinates) returns (copy: Coordinates)
    requires p.Valid()
    ensures fresh(copy) && fresh(copy.Repr()) && copy.Valid() && copy.Value() == p.Value()
  {
    hide Residue;
    copy := new Coordinates(0, 0, 0, 0);
    Copy(copy.x, p.x);
    Copy(copy.y, p.y);
    Copy(copy.z, p.z);
    Copy(copy.t, p.t);
  }

  /** One bit of the ladder. */
  method LadderBit(p: Coordinates, q: Coordinates, d2: array<int>, bit: nat)
    requires p.Valid() && q.Valid() && p != q && p.Repr() !! q.Repr() && bit <= 1
    requires d2.Length == 16 && Tight(d2[..]) && d2 !in q.Repr() && d2 !in p.Repr()
    modifies p, q, p.Repr(), q.Repr()
    ensures p.Valid() && q.Valid() && p.Repr() !! q.Repr() && fresh(p.Repr()) && fresh(q.Repr())
    ensures d2[..] == old(d2[..]) && d2 !in q.Repr() && d2 !in p.Repr()
    ensures var (add, a, b) := (AddedTo(Residue(d2[..])), old(p.Value()), old(q.Value()));
            (p.Value(), q.Value()) == if bit == 1 then (add(a, b), add(b, b)) else (add(a, a), add(b, a))
  {
    hide Residue, Tight, Added, Coordinates.Value, Coordinates.Valid;
    DistinctArrays(p);
    DistinctArrays(q);
    PointSwap(p, q, bit);
    PointAdd(q, p, d2);
    var copy := Duplicate(p);
    PointAdd(p, copy, d2);
    PointSwap(p, q, bit);
  }

  lemma DistinctArrays(p: Coordinates)
    requires p.Valid()
    ensures p.x.Length == p.y.Length == p.z.Length == p.t.Length == 16
  {
  }

  /** The whole ladder, from the highest bit down. */
  method Climb(p: Coordinates, q: Coordinates, s: seq<byte>, d2: array<int>, ghost k: nat)
    requires p.Valid() && q.Valid() && p != q && p.Repr() !! q.Repr() && p.Value() == NEUTRAL
    requires d2.Length == 16 && Tight(d2[..]) && d2 !in q.Repr() && d2 !in p.Repr() && |s| == 32 && k == Val8(s)
    modifies p, q, p.Repr(), q.Repr()
    ensures p.Valid() && p.Value() == Swaps(AddedTo(Residue(d2[..])), NEUTRAL, old(q.Value()), k, 0).0
  {
    hide Residue, Tight, Val8, BitOf, Swaps, Added, AddedTo, Coordinates.Value, Coordinates.Valid;
    ghost var add, q0 := AddedTo(Residue(d2[..])), q.Value();
    SwapsStart(add, NEUTRAL, q0, k);
    var index := 256;
    while index > 0
      invariant 0 <= index <= 256 && p.Valid() && q.Valid() && p.Repr() !! q.Repr()
      invariant fresh(p.Repr() - old(p.Repr())) && fresh(q.Repr() - old(q.Repr())) && d2 !in q.Repr() && d2 !in p.Repr()
      invariant d2[..] == old(d2[..])
      invariant (p.Value(), q.Value()) == Swaps(add, NEUTRAL, q0, k, index)
    {
      index := index - 1;
      var bit := BitOf(s[index / 8], index % 8);
      BitInByte(s, index);
      SwapsNext(add, NEUTRAL, q0, k, index);
      LadderBit(p, q, d2, bit);
    }
  }

  /** [s]q: the swap ladder over the addition formulas of the curve, `q` used up. */
  method ScalarMultiply(q: Coordinates, s: seq<byte>) returns (p: Coordinates)
    requires q.Valid() && |s| == 32
    modifies q, q.Repr()
    ensures p.Valid() && Val8(s) >= 0
    ensures p.Value() == Swaps(AddedTo(D2), NEUTRAL, old(q.Value()), Val8(s), 0).0
  {
    hide Residue, Tight, Val8, Swaps, Added, AddedTo;
    Val8Range(s);
    D2Is();
    var d2 := new int[16](i requires 0 <= i < 16 => D2_LIMBS[i]);
    assert d2[..] == D2_LIMBS;
    p := new Coordinates(0, 1, 1, 0);
    Climb(p, q, s, d2, Val8(s));
  }

  /** What it computes, read as the k-fold sum of the curve's group. */
  lemma ScalarSum<U(!new)>(on: Point -> bool, other: (U, U) -> U, unit: U, h: Point -> U, q: Point, s: seq<byte>)
    requires CommutativeMonoid(other, unit) && Reads(AddedTo(D2), NEUTRAL, on, other, unit, h) && on(q) && |s| == 32
    ensures Val8(s) >= 0
    ensures h(Swaps(AddedTo(D2), NEUTRAL, q, Val8(s), 0).0) == Multiple(other, unit, h(q), Val8(s))
  {
    hide CommutativeMonoid, Reads, Val8, AddedTo, Swaps, Multiple, Pow2, W8;
    Val8Range(s);
    BytesBits();
    LadderSums(AddedTo(D2), NEUTRAL, on, other, unit, h, q, Val8(s));
  }

  lemma BytesBits()
    ensures W8(32) == Pow2(256)
  {
    W8Pow2(32);
  }

  lemma {:induction false} W8Pow2(n: nat)
    ensures W8(n) == Pow2(8 * n)
  {
    hide Pow2, W8;
    if n == 0 {
      BaseCase();
    } else {
      W8Pow2(n - 1);
      Pow2At8();
      Pow2Sum(8, 8 * (n - 1));
      W8Next(n);
    }
  }

  lemma BaseCase()
    ensures W8(0) == 1 == Pow2(0)
  {
  }

  lemma W8Next(n: nat)
    requires n > 0
    ensures W8(n) == 0x100 * W8(n - 1)
  {
  }

  lemma SwapsStart<T>(add: (T, T) -> T, zero: T, q: T, k: nat)
    ensures Swaps(add, zero, q, k, 256) == (zero, q)
  {
  }

  lemma SwapsNext<T>(add: (T, T) -> T, zero: T, q: T, k: nat, i: nat)
    requires i < 256
    ensures var (a, b) := Swaps(add, zero, q, k, i + 1);
            Swaps(add, zero, q, k, i) == if BitOf(k, i) == 1 then (add(a, b), add(b, b)) else (add(a, a), add(b, a))
  {
    hide BitOf;
  }
}
