/** X25519 against section 5 of RFC 7748: the same ladder, with the swaps in
    other places, for every secret and every point. */
module X25519 {
  import opened Base
  import opened Numbers
  import opened Field25519
  import opened FieldBytes

  // ---- The ladder of RFC 7748 -------------------------------------------------------------------

  const A24: nat := 121665

  datatype Ladder = Ladder(x2: nat, z2: nat, x3: nat, z3: nat)

  function Swapped(swap: nat, s: Ladder): Ladder {
    if swap == 1 then Ladder(s.x3, s.z3, s.x2, s.z2) else s
  }

  /** One step of the ladder, between its swaps. */
  function DoubleAdd(x1: nat, s: Ladder): Ladder {
    var a := Sum(s.x2, s.z2);
    var aa := Mul(a, a);
    var b := Difference(s.x2, s.z2);
    var bb := Mul(b, b);
    var e := Difference(aa, bb);
    var c := Sum(s.x3, s.z3);
    var d := Difference(s.x3, s.z3);
    var da := Mul(d, a);
    var cb := Mul(c, b);
    var plus := Sum(da, cb);
    var minus := Difference(da, cb);
    Ladder(Mul(aa, bb), Mul(e, Sum(aa, Mul(A24, e))), Mul(plus, plus), Mul(x1, Mul(minus, minus)))
  }

  function Flip(a: nat, b: nat): nat {
    if a == b then 0 else 1
  }

  /** The state and the pending swap after the bits from 254 down to `t`. */
  function LadderAt(k: nat, u: nat, t: nat): (Ladder, nat)
    requires t <= 255
    decreases 255 - t
  {
    if t == 255 then (Ladder(1, 0, u, 1), 0)
    else
      var (s, swap) := LadderAt(k, u, t + 1);
      var bit := BitOf(k, t);
      (DoubleAdd(u, Swapped(Flip(swap, bit), s)), bit)
  }

  /** The function X25519 of section 5, on numbers. */
  function Rfc7748(k: nat, u: nat): (r: nat)
    ensures r < P
  {
    var (s, swap) := LadderAt(k, u, 0);
    var last := Swapped(swap, s);
    Mul(last.x2, Power(last.z2, P - 2))
  }

  // ---- Scalars ----------------------------------------------------------------------------------

  /** A secret with its lowest three bits and its highest one cleared, and the
      one below set. */
  function Clamped(secret: seq<byte>): (r: seq<byte>)
    requires |secret| == 32
    ensures |r| == 32
  {
    var top := secret[31] % 128;
    secret[0 := secret[0] - secret[0] % 8][31 := if top < 64 then top + 64 else top]
  }

  /** The number a secret stands for, and the coordinate a point does. */
  function Scalar(secret: seq<byte>): nat
    requires |secret| == 32
  {
    Val8Range(Clamped(secret));
    Val8(Clamped(secret))
  }

  function Coordinate(point: seq<byte>): (r: nat)
    requires |point| == 32
    ensures r < P
  {
    Val8(point) % POW255 % P
  }

  /** The number of a secret, its lowest three bits and all from bit 254 on
      cleared, with bit 254 set: the other bits are the secret's. */
  lemma ClampedIs(secret: seq<byte>)
    requires |secret| == 32
    ensures Val8(secret) >= 0
    ensures Scalar(secret) == POW255 / 2 + Val8(secret) % (POW255 / 2) - Val8(secret) % 8
    ensures Scalar(secret) % 8 == 0 && POW255 / 2 <= Scalar(secret) < POW255
  {
    hide Val8, W8, Scalar;
    var low, top := Val8(secret[..31]), secret[31];
    ClampedParts(secret);
    W8At31();
    Cut254(W8(31), low, top);
    Eighths(secret[0], low, W8(31), top);
    Val8Range(secret);
  }

  /** The number of a secret and of the scalar made of it, the highest byte apart. */
  lemma ClampedParts(secret: seq<byte>)
    requires |secret| == 32
    ensures 0 <= Val8(secret[..31]) < W8(31) && secret[0] <= Val8(secret[..31])
    ensures (Val8(secret[..31]) - secret[0]) % 0x100 == 0
    ensures Val8(secret) == Val8(secret[..31]) + W8(31) * secret[31]
    ensures Scalar(secret) == Val8(secret[..31]) - secret[0] % 8 + W8(31) * (secret[31] % 64 + 64)
  {
    hide Val8, W8, Clamped, Scalar;
    var low := secret[..31];
    assert low + [secret[31]] == secret;
    Val8Snoc(low, secret[31]);
    Val8Range(low);
    FirstByte(low);
    ScalarParts(secret);
  }

  lemma FirstByte(s: seq<byte>)
    requires s != []
    ensures s[0] <= Val8(s) && (Val8(s) - s[0]) % 0x100 == 0
  {
    hide Val8;
    Val8Head(s);
    Val8Range(s[1..]);
  }

  lemma ScalarParts(secret: seq<byte>)
    requires |secret| == 32
    ensures Scalar(secret) == Val8(secret[..31]) - secret[0] % 8 + W8(31) * (secret[31] % 64 + 64)
  {
    hide Val8, W8, Clamped;
    var low, first := secret[..31], secret[0] - secret[0] % 8;
    ClampedShape(secret);
    Val8Snoc(low[0 := first], secret[31] % 64 + 64);
    Val8Low(low, first);
  }

  lemma ClampedShape(secret: seq<byte>)
    requires |secret| == 32
    ensures Clamped(secret) == secret[..31][0 := secret[0] - secret[0] % 8] + [secret[31] % 64 + 64]
  {
  }

  lemma Eighths(first: byte, low: nat, w: nat, top: nat)
    requires first <= low < w && (low - first) % 0x100 == 0 && 128 * w == POW255
    ensures (low + w * top) % 8 == first % 8
    ensures var k := low - first % 8 + w * (top % 64 + 64);
            k == POW255 / 2 + (low + w * (top % 64)) - first % 8 && k % 8 == 0 && POW255 / 2 <= k < POW255
  {
    var q := (low - first) / 0x100;
    var z, y := w / 8 * top, w / 8 * (top % 64);
    EighthOf(w, top);
    EighthOf(w, top % 64);
    TopProduct(w, top % 64);
    SetTop(w, top % 64, top % 64 + 64);
    Cleared(32 * q + z, first);
    Cleared(32 * q + y, first);
  }

  lemma EighthOf(w: nat, x: nat)
    requires w % 8 == 0
    ensures w * x == 8 * (w / 8 * x)
  {
    Regroup(8, w / 8, x);
  }

  lemma Cleared(n: int, first: byte)
    ensures (8 * n + first) % 8 == first % 8 && (8 * n + first - first % 8) % 8 == 0
  {
  }

  lemma Val8Low(s: seq<byte>, b: byte)
    requires s != []
    ensures Val8(s[0 := b]) == Val8(s) - s[0] + b
  {
    assert s[0 := b][1..] == s[1..];
  }

  /** A number of 31 bytes and one more byte, modulo 2^254. */
  lemma Cut254(w: nat, low: nat, top: byte)
    requires 64 * w == POW255 / 2 && low < w
    ensures (low + w * top) % (POW255 / 2) == low + w * (top % 64)
  {
    var q, r := top / 64, top % 64;
    TopSplit(w, q, r);
    TopProduct(w, r);
    ModHalf(low + w * top, q, low + w * r);
  }

  lemma TopSplit(w: nat, q: nat, r: nat)
    ensures w * (64 * q + r) == 64 * w * q + w * r
  {
    assert w * (64 * q) == 64 * w * q;
  }

  lemma TopProduct(w: nat, r: nat)
    requires r <= 63
    ensures w * r <= w * 63
  {
  }

  lemma ModHalf(x: int, q: int, r: nat)
    requires x == POW255 / 2 * q + r && r < POW255 / 2
    ensures x % (POW255 / 2) == r
  {
  }

  lemma SetTop(w: nat, low: nat, top: nat)
    requires top == low + 64
    ensures w * top == w * low + 64 * w
  {
  }

  lemma W8At31()
    ensures 128 * W8(31) == POW255
  {
    assert W8(1) == 0x100 * W8(0);
    hide W8;
    W8Sum(1, 1);
    W8Sum(2, 2);
    W8Sum(4, 4);
    W8Sum(8, 8);
    W8Sum(16, 8);
    W8Sum(24, 4);
    W8Sum(28, 2);
    W8Sum(30, 1);
  }

  // ---- The ladder as it is written --------------------------------------------------------------

  ghost predicate Elements(fields: seq<array<int>>) {
    && (forall i | 0 <= i < |fields| :: fields[i].Length == 16)
    && (forall i, j | 0 <= i < j < |fields| :: fields[i] != fields[j])
  }

  /** The four coordinates as the ladder of the RFC names them. */
  ghost function State(a: array<int>, b: array<int>, c: array<int>, d: array<int>): Ladder
    reads a, b, c, d
  {
    Ladder(Residue(a[..]), Residue(c[..]), Residue(b[..]), Residue(d[..]))
  }

  lemma SwapTwice(first: nat, second: nat, s: Ladder)
    requires first <= 1 && second <= 1
    ensures Swapped(second, Swapped(first, s)) == Swapped(Flip(first, second), s)
  {
  }

  /** The square of a difference does not mind which way it is taken. */
  lemma SquareOfDifference(x: nat, y: nat)
    ensures Mul(Difference(x, y), Difference(x, y)) == Mul(Difference(y, x), Difference(y, x))
  {
    var z := x - y;
    MulMod(z, z);
    MulMod(-z, -z);
    SquareSign(z);
  }

  lemma SquareSign(z: int)
    ensures z * z == -z * -z
  {
  }

  /** out = a * b, where `out` is then copied back over one of them. */
  method Times(to: array<int>, t: array<int>, a: array<int>, b: array<int>)
    requires to.Length == t.Length == a.Length == b.Length == 16 && t != a && t != b && to != t
    requires Loose(a[..]) && Loose(b[..])
    modifies to, t
    ensures Tight(to[..]) && Residue(to[..]) == Mul(old(Residue(a[..])), old(Residue(b[..])))
  {
    Multiply(t, a, b);
    Copy(to, t);
  }

  method Plus(to: array<int>, t: array<int>, a: array<int>, b: array<int>)
    requires to.Length == t.Length == a.Length == b.Length == 16 && t != a && t != b && to != t
    requires Tight(a[..]) && Tight(b[..])
    modifies to, t
    ensures Loose(to[..]) && Residue(to[..]) == Sum(old(Residue(a[..])), old(Residue(b[..])))
  {
    TightLoose(a[..]);
    TightLoose(b[..]);
    Add(t, a, b);
    Copy(to, t);
  }

  method Minus(to: array<int>, t: array<int>, a: array<int>, b: array<int>)
    requires to.Length == t.Length == a.Length == b.Length == 16 && t != a && t != b && to != t
    requires Tight(a[..]) && Tight(b[..])
    modifies to, t
    ensures Loose(to[..]) && Residue(to[..]) == Difference(old(Residue(a[..])), old(Residue(b[..])))
  {
    TightLoose(a[..]);
    TightLoose(b[..]);
    Subtract(t, a, b);
    Copy(to, t);
  }

  lemma A24Is(s: seq<int>)
    requires |s| == 16 && s[0] == 0xDB41 && s[1] == 1 && forall i | 2 <= i < 16 :: s[i] == 0
    ensures Tight(s) && Residue(s) == A24
  {
    hide Val;
    var zeros := seq(14, _ => 0);
    assert s == [0xDB41, 1] + zeros;
    ValConcat([0xDB41, 1], zeros);
    ValZeros(14);
    ValSnoc([0xDB41], 1);
    ValOne(0xDB41);
    assert [0xDB41] + [1] == [0xDB41, 1];
    W16One();
    ZeroProduct(W16(2));
  }

  lemma ZeroProduct(w: int)
    ensures w * 0 == 0
  {
  }

  lemma W16One()
    ensures W16(1) == 0x1_0000
  {
    assert W16(0) == 1;
  }

  /** The middle of a step, operation by operation. */
  method Middle(a: array<int>, b: array<int>, c: array<int>, d: array<int>, e: array<int>, f: array<int>, t: array<int>,
      sum: array<int>, a24: array<int>, x: array<int>)
    requires Elements([a, b, c, d, e, f, t, sum, a24, x])
    requires Tight(a[..]) && Tight(b[..]) && Tight(c[..]) && Tight(d[..]) && Tight(x[..])
    requires Tight(a24[..]) && Residue(a24[..]) == A24
    modifies a, b, c, d, e, f, t, sum
    ensures Tight(a[..]) && Tight(b[..]) && Tight(c[..]) && Tight(d[..])
    ensures State(a, b, c, d) == DoubleAdd(Residue(x[..]), old(State(a, b, c, d)))
  {
    hide Tight, Loose, Residue, Mul, Sum, Difference;
    ghost var s := State(a, b, c, d);
    ghost var x1 := Residue(x[..]);
    Apart(a, b, c, d, e, f, t, sum, a24, x);
    Plus(e, t, a, c);
    Minus(a, t, a, c);
    Plus(sum, t, b, d);
    Minus(b, t, b, d);
    Copy(c, sum);
    Square(d, e);
    Square(f, a);
    Times(a, t, c, a);
    Times(c, t, b, e);
    ghost var cb, da := Residue(a[..]), Residue(c[..]);
    Plus(e, t, a, c);
    Minus(a, t, a, c);
    Square(b, a);
    ghost var minus := Residue(b[..]);
    Minus(c, t, d, f);
    TightLoose(a24[..]);
    Times(a, t, c, a24);
    Plus(a, t, a, d);
    Times(c, t, c, a);
    TightLoose(d[..]);
    TightLoose(f[..]);
    Times(a, t, d, f);
    TightLoose(b[..]);
    TightLoose(x[..]);
    Times(d, t, b, x);
    Square(b, e);
    SquareOfDifference(da, cb);
    StepIs(x1, s, cb, da, minus);
  }

  lemma Apart(a: array<int>, b: array<int>, c: array<int>, d: array<int>, e: array<int>, f: array<int>, t: array<int>,
      sum: array<int>, a24: array<int>, x: array<int>)
    requires Elements([a, b, c, d, e, f, t, sum, a24, x])
    ensures a.Length == b.Length == c.Length == d.Length == e.Length == f.Length == t.Length == sum.Length
            == a24.Length == x.Length == 16
    ensures a !in [b, c, d, e, f, t, sum, a24, x] && b !in [c, d, e, f, t, sum, a24, x]
    ensures c !in [d, e, f, t, sum, a24, x]
    ensures d !in [e, f, t, sum, a24, x] && e !in [f, t, sum, a24, x] && f !in [t, sum, a24, x] && t !in [sum, a24, x]
    ensures sum !in [a24, x] && a24 != x
  {
    var all := [a, b, c, d, e, f, t, sum, a24, x];
    assert all[0] == a && all[1] == b && all[2] == c && all[3] == d && all[4] == e && all[5] == f && all[6] == t
        && all[7] == sum && all[8] == a24 && all[9] == x;
  }

  /** The step with its operands the other way round is the step of the RFC. */
  lemma StepIs(x1: nat, s: Ladder, cb: nat, da: nat, minus: nat)
    requires cb == Mul(Sum(s.x3, s.z3), Difference(s.x2, s.z2)) && da == Mul(Difference(s.x3, s.z3), Sum(s.x2, s.z2))
    requires minus == Mul(Difference(da, cb), Difference(da, cb))
    ensures var aa := Mul(Sum(s.x2, s.z2), Sum(s.x2, s.z2));
            var bb := Mul(Difference(s.x2, s.z2), Difference(s.x2, s.z2));
            var e := Difference(aa, bb);
            var plus := Sum(cb, da);
            DoubleAdd(x1, s) == Ladder(Mul(aa, bb), Mul(e, Sum(Mul(e, A24), aa)), Mul(plus, plus), Mul(minus, x1))
  {
    hide Mul, Sum, Difference;
    var aa := Mul(Sum(s.x2, s.z2), Sum(s.x2, s.z2));
    var e := Difference(aa, Mul(Difference(s.x2, s.z2), Difference(s.x2, s.z2)));
    MulCommutes(e, A24);
    MulCommutes(minus, x1);
    SumCommutes(Mul(e, A24), aa);
    SumCommutes(cb, da);
  }

  lemma SumCommutes(x: nat, y: nat)
    ensures Sum(x, y) == Sum(y, x)
  {
  }

  /** One bit: swap, `DoubleAdd`, swap back. */
  method Step(a: array<int>, b: array<int>, c: array<int>, d: array<int>, e: array<int>, f: array<int>, t: array<int>,
      sum: array<int>, a24: array<int>, x: array<int>, bit: nat)
    requires Elements([a, b, c, d, e, f, t, sum, a24, x]) && bit <= 1
    requires Tight(a[..]) && Tight(b[..]) && Tight(c[..]) && Tight(d[..]) && Tight(x[..])
    requires Tight(a24[..]) && Residue(a24[..]) == A24
    modifies a, b, c, d, e, f, t, sum
    ensures Tight(a[..]) && Tight(b[..]) && Tight(c[..]) && Tight(d[..])
    ensures State(a, b, c, d) == Swapped(bit, DoubleAdd(Residue(x[..]), Swapped(bit, old(State(a, b, c, d)))))
  {
    hide Residue, DoubleAdd;
    Apart(a, b, c, d, e, f, t, sum, a24, x);
    ConditionalSwap(a, b, bit);
    ConditionalSwap(c, d, bit);
    Middle(a, b, c, d, e, f, t, sum, a24, x);
    ConditionalSwap(a, b, bit);
    ConditionalSwap(c, d, bit);
  }

  lemma LadderNext(k: nat, u: nat, i: nat, before: Ladder)
    requires i < 255 && before == Swapped(LadderAt(k, u, i + 1).1, LadderAt(k, u, i + 1).0)
    requires LadderAt(k, u, i + 1).1 <= 1
    ensures var bit := BitOf(k, i);
            && LadderAt(k, u, i).1 == bit
            && Swapped(bit, DoubleAdd(u, Swapped(bit, before))) == Swapped(LadderAt(k, u, i).1, LadderAt(k, u, i).0)
  {
    hide DoubleAdd, BitOf;
    SwapTwice(LadderAt(k, u, i + 1).1, BitOf(k, i), LadderAt(k, u, i + 1).0);
  }

  lemma LadderStart(k: nat, u: nat)
    ensures LadderAt(k, u, 255) == (Ladder(1, 0, u, 1), 0)
  {
  }

  lemma LadderEnd(k: nat, u: nat)
    ensures var last := Swapped(LadderAt(k, u, 0).1, LadderAt(k, u, 0).0);
            Rfc7748(k, u) == Mul(last.x2, Power(last.z2, P - 2))
  {
    hide LadderAt, Mul, Power;
  }

  lemma Small(s: seq<int>, x: int)
    requires |s| == 16 && s[0] == x && 0 <= x < 2 && forall i | 1 <= i < 16 :: s[i] == 0
    ensures Tight(s) && Residue(s) == x
  {
    hide Val;
    var zeros := seq(15, _ => 0);
    assert s == [x] + zeros;
    ValConcat([x], zeros);
    ValZeros(15);
    ValOne(x);
    ZeroProduct(W16(1));
  }

  /** A field element of one small limb. */
  method Constant(value: int) returns (field: array<int>)
    ensures fresh(field) && field.Length == 16 && field[0] == value && forall i | 1 <= i < 16 :: field[i] == 0
  {
    field := new int[16](i => if i == 0 then value else 0);
  }

  /** After all 255 bits, x2 and z2 are those of the ladder. */
  method Climb(a: array<int>, b: array<int>, c: array<int>, d: array<int>, x: array<int>, clamped: seq<byte>,
      ghost k: nat, ghost u: nat)
    requires Elements([a, b, c, d, x]) && |clamped| == 32 && k == Val8(clamped)
    requires Tight(a[..]) && Tight(b[..]) && Tight(c[..]) && Tight(d[..]) && Tight(x[..]) && Residue(x[..]) == u
    requires State(a, b, c, d) == Ladder(1, 0, u, 1)
    modifies a, b, c, d
    ensures Tight(a[..]) && Tight(c[..])
    ensures var last := Swapped(LadderAt(k, u, 0).1, LadderAt(k, u, 0).0);
            Residue(a[..]) == last.x2 && Residue(c[..]) == last.z2
  {
    hide Tight, Residue, LadderAt, Val8, BitOf, DoubleAdd, State, Elements;
    FiveApart(a, b, c, d, x);
    var e := Constant(0);
    var f := Constant(0);
    var t := Constant(0);
    var sum := Constant(0);
    var a24 := Constant(0xDB41);
    a24[1] := 1;
    A24Is(a24[..]);
    LadderStart(k, u);
    SwapNone(LadderAt(k, u, 255).0);
    Fields(a, b, c, d, e, f, t, sum, a24, x);
    var i := 255;
    while i > 0
      invariant 0 <= i <= 255
      invariant Tight(a[..]) && Tight(b[..]) && Tight(c[..]) && Tight(d[..]) && Tight(x[..])
      invariant Tight(a24[..]) && Residue(a24[..]) == A24 && Residue(x[..]) == u
      invariant LadderAt(k, u, i).1 <= 1 && State(a, b, c, d) == Swapped(LadderAt(k, u, i).1, LadderAt(k, u, i).0)
      modifies a, b, c, d, e, f, t, sum
    {
      i := i - 1;
      var bit := BitOf(clamped[i / 8], i % 8);
      BitInByte(clamped, i);
      LadderNext(k, u, i, State(a, b, c, d));
      Step(a, b, c, d, e, f, t, sum, a24, x, bit);
    }
    Ended(a, b, c, d, k, u);
  }

  lemma SwapNone(s: Ladder)
    ensures Swapped(0, s) == s
  {
  }

  lemma FiveApart(a: array<int>, b: array<int>, c: array<int>, d: array<int>, x: array<int>)
    requires Elements([a, b, c, d, x])
    ensures a.Length == b.Length == c.Length == d.Length == x.Length == 16
    ensures a !in [b, c, d, x] && b !in [c, d, x] && c !in [d, x] && d != x
  {
    var all := [a, b, c, d, x];
    assert all[0] == a && all[1] == b && all[2] == c && all[3] == d && all[4] == x;
  }

  lemma FiveFields(a: array<int>, b: array<int>, c: array<int>, d: array<int>, x: array<int>)
    requires a.Length == b.Length == c.Length == d.Length == x.Length == 16
    requires a !in [b, c, d, x] && b !in [c, d, x] && c !in [d, x] && d != x
    ensures Elements([a, b, c, d, x])
  {
  }

  lemma ScalarIs(secret: seq<byte>)
    requires |secret| == 32
    ensures Scalar(secret) == Val8(Clamped(secret)) && |Clamped(secret)| == 32
  {
    hide Val8;
  }

  method Abscissa(point: seq<byte>) returns (x: array<int>)
    requires |point| == 32
    ensures fresh(x) && x.Length == 16 && Tight(x[..]) && Residue(x[..]) == Coordinate(point)
  {
    hide Tight, Residue, Val8, Val;
    x := Constant(0);
    Unpack(x, point);
  }

  /** For any 32 bytes as a secret and any 32 as a coordinate, the bytes of what
      `Rfc7748` makes of them; no 64-bit word overflows on the way. */
  method ScalarMultiply(secret: seq<byte>, point: seq<byte>) returns (out: seq<byte>)
    requires |secret| == 32 && |point| == 32
    ensures |out| == 32 && Val8(out) == Rfc7748(Scalar(secret), Coordinate(point))
  {
    hide Tight, Residue, LadderAt, Val8, Rfc7748, Clamped, Val, State, Mul, Power, Loose, Within, Elements, Scalar,
      Coordinate;
    var clamped := Clamped(secret);
    ghost var k, u := Scalar(secret), Coordinate(point);
    ScalarIs(secret);
    var x := Abscissa(point);
    var a := Constant(1);
    var b := Constant(0);
    Copy(b, x);
    var c := Constant(0);
    var d := Constant(1);
    Small(a[..], 1);
    Small(c[..], 0);
    Small(d[..], 1);
    Begun(a, b, c, d, u);
    FiveFields(a, b, c, d, x);
    Climb(a, b, c, d, x, clamped, k, u);
    LadderEnd(k, u);
    out := Quotient(a, c);
  }

  /** One coordinate over the other, packed. */
  method Quotient(a: array<int>, c: array<int>) returns (out: seq<byte>)
    requires a.Length == c.Length == 16 && Tight(a[..]) && Tight(c[..])
    ensures |out| == 32 && Val8(out) == Mul(Residue(a[..]), Power(Residue(c[..]), P - 2))
  {
    hide Tight, Residue, Val8, Mul, Power, Loose, Within;
    var inverse := Constant(0);
    var result := Constant(0);
    TightLoose(a[..]);
    TightLoose(c[..]);
    Invert(inverse, c);
    Multiply(result, a, inverse);
    TightWithin(result[..]);
    out := Pack(result);
  }

  lemma Begun(a: array<int>, b: array<int>, c: array<int>, d: array<int>, u: nat)
    requires Residue(a[..]) == 1 && Residue(b[..]) == u && Residue(c[..]) == 0 && Residue(d[..]) == 1
    ensures State(a, b, c, d) == Ladder(1, 0, u, 1)
  {
    hide Residue;
  }

  lemma Ended(a: array<int>, b: array<int>, c: array<int>, d: array<int>, k: nat, u: nat)
    requires State(a, b, c, d) == Swapped(LadderAt(k, u, 0).1, LadderAt(k, u, 0).0)
    ensures var last := Swapped(LadderAt(k, u, 0).1, LadderAt(k, u, 0).0);
            Residue(a[..]) == last.x2 && Residue(c[..]) == last.z2
  {
    hide Residue, LadderAt;
  }

  lemma Fields(a: array<int>, b: array<int>, c: array<int>, d: array<int>, e: array<int>, f: array<int>, t: array<int>,
      sum: array<int>, a24: array<int>, x: array<int>)
    requires a.Length == b.Length == c.Length == d.Length == e.Length == f.Length == t.Length == sum.Length
             == a24.Length == x.Length == 16
    requires a !in [b, c, d, e, f, t, sum, a24, x] && b !in [c, d, e, f, t, sum, a24, x]
    requires c !in [d, e, f, t, sum, a24, x]
    requires d !in [e, f, t, sum, a24, x] && e !in [f, t, sum, a24, x] && f !in [t, sum, a24, x] && t !in [sum, a24, x]
    requires sum !in [a24, x] && a24 != x
    ensures Elements([a, b, c, d, e, f, t, sum, a24, x])
  {
  }
}
