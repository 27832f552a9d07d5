/** Arithmetic modulo 2^255 - 19 on sixteen signed limbs of sixteen bits, with
    lazy carries. */
module Field25519 {
  import opened Numbers

  const P: nat := 0x7fff_ffff_ffff_ffff_ffff_ffff_ffff_ffff_ffff_ffff_ffff_ffff_ffff_ffff_ffff_ffed

  /** A signed 64-bit word holds this number. */
  predicate Fits(x: int) {
    -0x8000_0000_0000_0000 <= x < 0x8000_0000_0000_0000
  }

  /** The result of an operation on 64-bit words, which must not overflow. */
  function I64(x: int): (r: int)
    requires Fits(x)
    ensures r == x
  {
    x
  }

  predicate Within(s: seq<int>, bound: int) {
    |s| == 16 && forall i | 0 <= i < 16 :: -bound <= s[i] <= bound
  }

  /** Limbs as callers may hand them to a multiplication: between -2^26 and 2^26. */
  predicate Loose(s: seq<int>) {
    |s| == 16 && forall i | 0 <= i < 16 :: -0x400_0000 < s[i] < 0x400_0000
  }

  /** Limbs as a multiplication leaves them. */
  predicate Tight(s: seq<int>) {
    |s| == 16 && -38 <= s[0] <= 0xFFFF + 38 && forall i | 1 <= i < 16 :: 0 <= s[i] <= 0xFFFF
  }

  /** The element some limbs stand for. */
  function Residue(s: seq<int>): (r: nat)
    ensures r < P
  {
    Val(s) % P
  }

  // ---- Residues ---------------------------------------------------------------------------------

  function Mul(x: int, y: int): (r: nat)
    ensures r < P
  {
    x * y % P
  }

  function Sum(x: int, y: int): (r: nat)
    ensures r < P
  {
    (x + y) % P
  }

  function Difference(x: int, y: int): (r: nat)
    ensures r < P
  {
    (x - y) % P
  }

  lemma ModShift(x: int, k: int)
    ensures (x - P * k) % P == x % P
  {
  }

  lemma MulMod(x: int, y: int)
    ensures Mul(x, y) == Mul(x % P, y % P)
  {
    var a, b := x / P, y / P;
    var r, s := x % P, y % P;
    assert x == r + P * a && y == s + P * b;
    Expand(r, s, a, b, P);
    ModShift(r * s + P * (r * b + a * s + P * (a * b)), r * b + a * s + P * (a * b));
  }

  lemma Expand(r: int, s: int, a: int, b: int, p: int)
    ensures (r + p * a) * (s + p * b) == r * s + p * (r * b + a * s + p * (a * b))
  {
  }

  lemma SumMod(x: int, y: int)
    ensures Sum(x, y) == Sum(x % P, y % P) && Difference(x, y) == Difference(x % P, y % P)
  {
    ModShift(x % P + y % P, -(x / P) - y / P);
    ModShift(x % P - y % P, -(x / P) + y / P);
  }

  // ---- Carrying ---------------------------------------------------------------------------------

  /** What the first `i` limbs carry into the next. */
  function Out(s: seq<int>, i: nat): int
    requires i <= |s|
  {
    if i == 0 then 0 else (s[i - 1] + Out(s, i - 1)) / 0x1_0000
  }

  function Digit(s: seq<int>, i: nat): (r: int)
    requires i < |s|
    ensures 0 <= r < 0x1_0000
  {
    (s[i] + Out(s, i)) % 0x1_0000
  }

  /** The limbs after a carry pass: what leaves the top comes back in below,
      times 38, as 2^256 is 38 modulo p. */
  function Carried(s: seq<int>): (r: seq<int>)
    requires |s| == 16
    ensures |r| == 16
  {
    seq(16, i requires 0 <= i < 16 => if i == 0 then Digit(s, 0) + 38 * Out(s, 16) else Digit(s, i))
  }

  function Digits(s: seq<int>, n: nat): (r: seq<int>)
    requires n <= |s|
    ensures |r| == n
  {
    seq(n, i requires 0 <= i < n => Digit(s, i))
  }

  lemma {:induction false} DigitsValue(s: seq<int>, n: nat)
    requires n <= |s|
    ensures Val(s[..n]) == Val(Digits(s, n)) + W16(n) * Out(s, n)
  {
    hide Val;
    if n == 0 {
      assert s[..0] == Digits(s, 0) == [];
    } else {
      DigitsValue(s, n - 1);
      assert s[..n] == s[..n - 1] + [s[n - 1]];
      assert Digits(s, n) == Digits(s, n - 1) + [Digit(s, n - 1)];
      ValSnoc(s[..n - 1], s[n - 1]);
      ValSnoc(Digits(s, n - 1), Digit(s, n - 1));
      CarryOver(W16(n - 1), s[n - 1], Out(s, n - 1), Digit(s, n - 1), Out(s, n));
    }
  }

  lemma CarryOver(w: int, x: int, c: int, digit: int, c': int)
    requires x + c == digit + 0x1_0000 * c'
    ensures w * c + w * x == w * digit + 0x1_0000 * w * c'
  {
    assert w * (x + c) == w * x + w * c;
    assert w * (digit + 0x1_0000 * c') == w * digit + w * (0x1_0000 * c');
  }

  /** A carry pass changes the number by a multiple of p, exactly: 2p times what
      leaves the top. */
  lemma CarriedValue(s: seq<int>)
    requires |s| == 16
    ensures Val(Carried(s)) == Val(s) - 2 * P * Out(s, 16)
  {
    hide Val, W16, Out, Digit;
    DigitsValue(s, 16);
    assert s[..16] == s;
    var digits := Digits(s, 16);
    assert Carried(s) == digits[0 := digits[0] + 38 * Out(s, 16)];
    ValPlus(digits, 0, 38 * Out(s, 16));
    W16At16();
    W16At0();
  }

  lemma W16At0()
    ensures W16(0) == 1
  {
  }

  /** What goes over is small when the limbs are not too large. */
  lemma {:induction false} OutSmall(s: seq<int>, i: nat)
    requires Within(s, 0x4000_0000_0000_0000) && i <= 16
    ensures -0x8000_0000_0000 <= Out(s, i) <= 0x8000_0000_0000
  {
    if i > 0 {
      OutSmall(s, i - 1);
    }
  }

  /** Limbs one carry pass away from tight. */
  predicate Once(s: seq<int>) {
    |s| == 16 && -0x20_0000_0000_0000 <= s[0] <= 0x20_0000_0000_0000 && forall i | 1 <= i < 16 :: 0 <= s[i] <= 0xFFFF
  }

  lemma CarriedOnce(s: seq<int>)
    requires Within(s, 0x4000_0000_0000_0000)
    ensures Once(Carried(s))
  {
    hide Out;
    OutSmall(s, 16);
  }

  lemma {:induction false} OutTiny(s: seq<int>, i: nat)
    requires Once(s) && i <= 16
    ensures i == 1 ==> -0x20_0000_0000 <= Out(s, i) <= 0x20_0000_0000
    ensures i == 2 ==> -0x20_0001 <= Out(s, i) <= 0x20_0001
    ensures i == 3 ==> -33 <= Out(s, i) <= 33
    ensures i >= 4 ==> -1 <= Out(s, i) <= 1
  {
    if i > 0 {
      OutTiny(s, i - 1);
    }
  }

  /** Two carry passes after any multiplication leave tight limbs. */
  lemma CarriedTwice(s: seq<int>)
    requires Once(s)
    ensures Tight(Carried(s))
  {
    hide Out;
    OutTiny(s, 16);
  }

  /** The limbs half-way through a pass. */
  ghost predicate CarryingAt(s: seq<int>, now: seq<int>, i: nat) {
    && |s| == |now| == 16 && i <= 16
    && (forall k | 0 <= k < i :: now[k] == Digit(s, k))
    && (i < 16 ==> now[i] == s[i] + Out(s, i))
    && (forall k | i < k < 16 :: now[k] == s[k])
  }

  lemma CarryStep(s: seq<int>, now: seq<int>, i: nat)
    requires CarryingAt(s, now, i) && i < 16
    ensures var value := now[i] + 0x1_0000;
            var carried := value / 0x1_0000;
            && carried - 1 == Out(s, i + 1) && value - carried * 0x1_0000 == Digit(s, i)
  {
  }

  /** One limb done; the last one closes the circle. */
  lemma CarryNext(s: seq<int>, now: seq<int>, next: seq<int>, i: nat)
    requires CarryingAt(s, now, i) && i < 16
    requires next == (if i < 15 then now[i + 1 := now[i + 1] + Out(s, i + 1)] else now[0 := now[0] + 38 * Out(s,
             16)])[i := Digit(s, i)]
    ensures i < 15 ==> CarryingAt(s, next, i + 1)
    ensures i == 15 ==> next == Carried(s)
  {
    hide Out, Digit;
  }

  lemma CarryBounds(s: seq<int>, now: seq<int>, i: nat)
    requires Within(s, 0x4000_0000_0000_0000) && CarryingAt(s, now, i) && i < 16
    ensures -0x4000_8000_0000_0000 <= now[i] <= 0x4000_8000_0000_0000
    ensures i < 15 ==> -0x4000_0000_0000_0000 <= now[i + 1] <= 0x4000_0000_0000_0000
    ensures i > 0 ==> 0 <= now[0] <= 0xFFFF
  {
    hide Out, Digit;
    OutSmall(s, i);
  }

  lemma CarryStart(s: seq<int>)
    requires |s| == 16
    ensures CarryingAt(s, s, 0)
  {
  }

  /** One limb brought back into sixteen bits. */
  method CarryLimb(field: array<int>, i: nat, ghost s: seq<int>)
    requires field.Length == |s| == 16 && i < 16 && Within(s, 0x4000_0000_0000_0000) && CarryingAt(s, field[..], i)
    modifies field
    ensures i < 15 ==> CarryingAt(s, field[..], i + 1)
    ensures i == 15 ==> field[..] == Carried(s)
  {
    hide Out, Digit, CarryingAt, Carried, Within;
    ghost var now := field[..];
    CarryStep(s, now, i);
    OutSmall(s, i + 1);
    CarryBounds(s, now, i);
    CarryNext(s, now, (if i < 15 then now[i + 1 := now[i + 1] + Out(s, i + 1)] else now[0 := now[0] + 38 * Out(s,
        16)])[i := Digit(s, i)], i);
    var value := I64(field[i] + 0x1_0000);
    var carried := value / 0x1_0000;
    assert value - carried * 0x1_0000 == Digit(s, i);
    if i < 15 {
      assert field[i + 1] == now[i + 1];
      field[i + 1] := I64(field[i + 1] + (carried - 1));
    } else {
      assert field[0] == now[0];
      field[0] := I64(field[0] + (carried - 1 + I64(37 * (carried - 1))));
    }
    field[i] := I64(value - I64(carried * 0x1_0000));
    assert field[..] == (if i < 15 then now[i + 1 := now[i + 1] + Out(s, i + 1)] else now[0 := now[0] + 38 * Out(s,
        16)])[i := Digit(s, i)];
  }

  /** The same residue in smaller limbs. */
  method Carry(field: array<int>)
    requires field.Length == 16 && Within(field[..], 0x4000_0000_0000_0000)
    modifies field
    ensures field[..] == Carried(old(field[..]))
  {
    hide Out, Digit, CarryingAt, Carried, Within;
    ghost var s := field[..];
    assert |s| == 16;
    CarryStart(s);
    for i := 0 to 16
      invariant i < 16 ==> CarryingAt(s, field[..], i)
      invariant i == 16 ==> field[..] == Carried(s)
    {
      CarryLimb(field, i, s);
    }
  }

  // ---- Adding and multiplying -------------------------------------------------------------------

  method Add(out: array<int>, a: array<int>, b: array<int>)
    requires out.Length == a.Length == b.Length == 16 && out != a && out != b
    requires Within(a[..], 0x100_0000) && Within(b[..], 0x100_0000)
    modifies out
    ensures Loose(out[..]) && forall i | 0 <= i < 16 :: out[i] == a[i] + b[i]
    ensures Residue(out[..]) == Sum(Residue(a[..]), Residue(b[..]))
  {
    for i := 0 to 16
      invariant forall k | 0 <= k < i :: out[k] == a[k] + b[k]
    {
      out[i] := I64(a[i] + b[i]);
    }
    hide Val;
    ValSum(out[..], a[..], b[..], 1);
    SumMod(Val(a[..]), Val(b[..]));
  }

  method Subtract(out: array<int>, a: array<int>, b: array<int>)
    requires out.Length == a.Length == b.Length == 16 && out != a && out != b
    requires Within(a[..], 0x100_0000) && Within(b[..], 0x100_0000)
    modifies out
    ensures Loose(out[..]) && forall i | 0 <= i < 16 :: out[i] == a[i] - b[i]
    ensures Residue(out[..]) == Difference(Residue(a[..]), Residue(b[..]))
  {
    for i := 0 to 16
      invariant forall k | 0 <= k < i :: out[k] == a[k] - b[k]
    {
      out[i] := I64(a[i] - b[i]);
    }
    hide Val;
    ValSum(out[..], a[..], b[..], -1);
    SumMod(Val(a[..]), Val(b[..]));
  }

  lemma {:induction false} ValSum(s: seq<int>, a: seq<int>, b: seq<int>, sign: int)
    requires |s| == |a| == |b| && (sign == 1 || sign == -1) && forall i | 0 <= i < |s| :: s[i] == a[i] + sign * b[i]
    ensures Val(s) == Val(a) + sign * Val(b)
  {
    if s != [] {
      ValSum(s[1..], a[1..], b[1..], sign);
    }
  }

  /** Adding one product to a row of them. */
  lemma RowStep(i: nat, j: nat, x: int, y: int, v: int)
    ensures W16(i) * (x * (v + W16(j) * y)) == W16(i) * (x * v) + W16(i + j) * (x * y)
  {
    hide W16;
    W16Sum(i, j);
    var w, u := W16(i), W16(j);
    assert x * (v + u * y) == x * v + u * (x * y);
    assert w * (x * v + u * (x * y)) == w * (x * v) + w * (u * (x * y));
    Regroup(w, u, x * y);
  }

  lemma RowDone(a: seq<int>, i: nat, b: int)
    requires i < |a|
    ensures Val(a[..i + 1]) * b == Val(a[..i]) * b + W16(i) * (a[i] * b)
  {
    hide W16, Val;
    assert a[..i + 1] == a[..i] + [a[i]];
    ValSnoc(a[..i], a[i]);
    var v, w := Val(a[..i]), W16(i);
    assert (v + w * a[i]) * b == v * b + w * a[i] * b;
    Regroup(w, a[i], b);
  }

  const M: int := 0x10_0000_0000_0000

  lemma MulMono(x: nat, y: nat, b: nat)
    requires x <= b && y <= b
    ensures x * y <= b * b
  {
    assert b * b - x * y == (b - x) * y + b * (b - y);
  }

  lemma ProductSmall(x: int, y: int)
    requires -0x400_0000 < x < 0x400_0000 && -0x400_0000 < y < 0x400_0000
    ensures -M <= x * y <= M
  {
    var u, v := if x < 0 then -x else x, if y < 0 then -y else y;
    MulMono(u, v, 0x400_0000);
    assert x * y == u * v || x * y == -(u * v);
  }

  ghost predicate Sums(product: seq<int>, i: nat, j: nat) {
    |product| == 31 && forall k | 0 <= k < 31 :: -Most(i, j, k) <= product[k] <= Most(i, j, k)
  }

  function Most(i: nat, j: nat, k: nat): int {
    i * M + if i <= k < i + j then M else 0
  }

  /** One row of the schoolbook product. */
  method Row(product: array<int>, x: int, b: array<int>, i: nat)
    requires product.Length == 31 && b.Length == 16 && product != b && i < 16
    requires -0x400_0000 < x < 0x400_0000 && Loose(b[..]) && Sums(product[..], i, 0)
    modifies product
    ensures Sums(product[..], i + 1, 0)
    ensures Val(product[..]) == Val(old(product[..])) + W16(i) * (x * Val(b[..]))
  {
    hide Val, W16;
    ghost var before := Val(product[..]);
    assert b[..0] == [] && Val([]) == 0 by {
      ValNone();
    }
    for j := 0 to 16
      invariant Sums(product[..], i, j)
      invariant Val(product[..]) == before + W16(i) * (x * Val(b[..j]))
    {
      ghost var s := product[..];
      ProductSmall(x, b[j]);
      assert -Most(i, j, i + j) <= s[i + j] <= Most(i, j, i + j);
      product[i + j] := I64(product[i + j] + I64(x * b[j]));
      assert product[..] == s[i + j := s[i + j] + x * b[j]];
      ValPlus(s, i + j, x * b[j]);
      RowStep(i, j, x, b[j], Val(b[..j]));
      assert b[..j + 1] == b[..j] + [b[j]];
      ValSnoc(b[..j], b[j]);
    }
    assert b[..16] == b[..];
  }

  lemma ValNone()
    ensures Val([]) == 0
  {
  }

  /** Folding the top fifteen limbs back in below, times 38. */
  method FoldBack(product: array<int>)
    requires product.Length == 31 && forall k | 0 <= k < 31 :: -16 * M <= product[k] <= 16 * M
    modifies product
    ensures Within(product[..16], 0x4000_0000_0000_0000)
    ensures Val(product[..16]) == Val(old(product[..16])) + 38 * Val(old(product[16..]))
  {
    hide Val, W16;
    ghost var low, high := product[..16], product[16..];
    ValNone();
    assert high[..0] == [];
    for i := 0 to 15
      invariant product[16..] == high
      invariant forall k | 0 <= k < i :: -624 * M <= product[k] <= 624 * M
      invariant forall k | i <= k < 31 :: -16 * M <= product[k] <= 16 * M
      invariant Val(product[..16]) == Val(low) + 38 * Val(high[..i])
    {
      ghost var s := product[..16];
      assert high[i] == product[i + 16];
      product[i] := I64(product[i] + I64(38 * product[i + 16]));
      assert product[..16] == s[i := s[i] + 38 * high[i]];
      ValPlus(s, i, 38 * high[i]);
      assert high[..i + 1] == high[..i] + [high[i]];
      ValSnoc(high[..i], high[i]);
      Regroup(38, W16(i), high[i]);
      Regroup(W16(i), 38, high[i]);
    }
    assert high[..15] == high;
  }

  lemma RowBounds(s: seq<int>, i: nat)
    requires Sums(s, i, 0) && i <= 16
    ensures forall k | 0 <= k < 31 :: -16 * M <= s[k] <= 16 * M
  {
  }

  lemma ZeroSums()
    ensures Sums(seq(31, _ => 0), 0, 0) && Val(seq(31, _ => 0)) == 0
  {
    ValZeros(31);
  }

  lemma {:induction false} ValZeros(n: nat)
    ensures Val(seq(n, _ => 0)) == 0
  {
    if n > 0 {
      assert seq(n, _ => 0)[1..] == seq(n - 1, _ => 0);
      ValZeros(n - 1);
    }
  }

  /** The product of two elements: no 64-bit word overflows on the way, the
      number is right modulo p, and the limbs are small again. */
  method Multiply(out: array<int>, a: array<int>, b: array<int>)
    requires out.Length == a.Length == b.Length == 16 && out != a && out != b
    requires Loose(a[..]) && Loose(b[..])
    modifies out
    ensures Tight(out[..]) && Residue(out[..]) == Mul(Residue(a[..]), Residue(b[..]))
  {
    hide Val, W16, Sums, Carried, Tight, Once, Mul, Residue;
    var product := new int[31](_ => 0);
    ZeroSums();
    assert product[..] == seq(31, _ => 0);
    ValNone();
    assert a[..0] == [];
    for i := 0 to 16
      invariant Sums(product[..], i, 0)
      invariant Val(product[..]) == Val(a[..i]) * Val(b[..])
    {
      RowDone(a[..], i, Val(b[..]));
      assert a[..][..i + 1] == a[..i + 1] && a[..][..i] == a[..i];
      Row(product, a[i], b, i);
    }
    assert a[..16] == a[..];
    RowBounds(product[..], 16);
    ghost var all := product[..];
    assert all == all[..16] + all[16..];
    ValConcat(all[..16], all[16..]);
    W16At16();
    FoldBack(product);
    ghost var folded := product[..16];
    for i := 0 to 16
      invariant forall k | 0 <= k < i :: out[k] == product[k]
      invariant product[..16] == folded
    {
      out[i] := product[i];
    }
    assert out[..] == folded;
    CarriedOnce(folded);
    CarriedTwice(Carried(folded));
    CarriedValue(folded);
    CarriedValue(Carried(folded));
    OnceWithin(Carried(folded));
    Carry(out);
    Carry(out);
    SameResidue(Val(out[..]), Val(a[..]), Val(b[..]), Val(all[16..]) + Out(folded, 16) + Out(Carried(folded), 16));
    ResidueIs(out[..]);
    ResidueIs(a[..]);
    ResidueIs(b[..]);
  }

  lemma ResidueIs(s: seq<int>)
    ensures Residue(s) == Val(s) % P
  {
  }

  lemma OnceWithin(s: seq<int>)
    requires Once(s)
    ensures Within(s, 0x4000_0000_0000_0000)
  {
  }

  lemma SameResidue(x: int, a: int, b: int, k: int)
    requires x == a * b - 2 * P * k
    ensures x % P == Mul(a % P, b % P)
  {
    MulMod(a, b);
    ModShift(a * b, 2 * k);
  }

  method Square(out: array<int>, a: array<int>)
    requires out.Length == a.Length == 16 && out != a && Loose(a[..])
    modifies out
    ensures Tight(out[..]) && Residue(out[..]) == Mul(Residue(a[..]), Residue(a[..]))
  {
    Multiply(out, a, a);
  }

  lemma TightLoose(s: seq<int>)
    requires Tight(s)
    ensures Loose(s) && Within(s, 0x1_0025) && Within(s, 0x100_0000)
  {
  }

  // ---- Swapping ---------------------------------------------------------------------------------

  lemma SwapWord(x: int, y: int, swap: int)
    requires Fits(x) && Fits(y) && (swap == 0 || swap == 1)
    ensures var difference := And(Not(swap - 1), Xor(x, y));
            && Fits(Xor(x, y)) && Fits(difference)
            && Xor(x, difference) == (if swap == 1 then y else x) && Xor(y, difference) == (if swap == 1 then x else y)
  {
    hide Xor, And;
    Pow2At63();
    XorRange(x, y, 63);
    AndMask(Xor(x, y));
    XorBack(x, y);
    XorZero(x);
    XorZero(y);
    XorSame(x, y);
  }

  /** The arrays trade contents for 1 and keep them for 0. */
  method ConditionalSwap(p: array<int>, q: array<int>, swap: int)
    requires p.Length == q.Length == 16 && p != q && (swap == 0 || swap == 1)
    requires forall i | 0 <= i < 16 :: Fits(p[i]) && Fits(q[i])
    modifies p, q
    ensures p[..] == (if swap == 1 then old(q[..]) else old(p[..]))
    ensures q[..] == (if swap == 1 then old(p[..]) else old(q[..]))
  {
    hide Xor, And;
    var mask := Not(swap - 1);
    for i := 0 to 16
      invariant forall k | 0 <= k < i :: p[k] == (if swap == 1 then old(q[k]) else old(p[k]))
      invariant forall k | 0 <= k < i :: q[k] == (if swap == 1 then old(p[k]) else old(q[k]))
      invariant forall k | i <= k < 16 :: p[k] == old(p[k]) && q[k] == old(q[k])
    {
      SwapWord(p[i], q[i], swap);
      var difference := And(mask, Xor(p[i], q[i]));
      p[i] := Xor(p[i], difference);
      q[i] := Xor(q[i], difference);
    }
  }

  // ---- Powers -----------------------------------------------------------------------------------

  /** `x` to the `e`, modulo p. */
  function Power(x: nat, e: nat): (r: nat)
    ensures r < P
  {
    if e == 0 then 1 else Mul(x, Power(x, e - 1))
  }

  lemma MulLeft(x: int, y: int)
    ensures Mul(x % P, y) == Mul(x, y) && Mul(y, x % P) == Mul(y, x)
  {
    hide Mul;
    MulMod(x, y);
    MulMod(x % P, y);
    MulMod(y, x);
    MulMod(y, x % P);
  }

  lemma MulIs(x: int, y: int, xy: int)
    requires xy == x * y
    ensures Mul(x, y) == xy % P
  {
  }

  lemma MulAssociates(x: nat, y: nat, z: nat)
    ensures Mul(Mul(x, y), z) == Mul(x, Mul(y, z))
  {
    hide Mul;
    var xy, yz := x * y, y * z;
    Regroup(x, y, z);
    MulIs(x, y, xy);
    MulIs(y, z, yz);
    MulLeft(xy, z);
    MulLeft(yz, x);
    MulIs(xy, z, xy * z);
    MulIs(x, yz, xy * z);
  }

  lemma MulCommutes(x: nat, y: nat)
    ensures Mul(x, y) == Mul(y, x)
  {
  }

  lemma {:induction false} PowerSum(x: nat, a: nat, b: nat)
    ensures Power(x, a + b) == Mul(Power(x, a), Power(x, b))
  {
    hide Mul;
    if a > 0 {
      PowerSum(x, a - 1, b);
      MulAssociates(x, Power(x, a - 1), Power(x, b));
    } else {
      MulOne(Power(x, b));
    }
  }

  lemma MulOne(x: nat)
    requires x < P
    ensures Mul(1, x) == x
  {
  }

  /** One squaring, with or without another factor. */
  lemma PowerStep(x: nat, e: nat, bit: nat)
    requires bit <= 1 && x < P
    ensures var squared := Mul(Power(x, e), Power(x, e));
            Power(x, 2 * e + bit) == if bit == 1 then Mul(squared, x) else squared
  {
    hide Mul;
    PowerSum(x, e, e);
    if bit == 1 {
      assert Power(x, 2 * e + 1) == Mul(x, Power(x, 2 * e));
      MulCommutes(x, Power(x, 2 * e));
    }
  }

  lemma PowerOne(x: nat)
    requires x < P
    ensures Power(x, 1) == x
  {
    assert Power(x, 0) == 1;
    MulCommutes(x, 1);
    MulOne(x);
  }

  /** The exponent the inversion has reached before step `i`. */
  function InvertExponent(i: nat): nat
    requires i <= 254
    decreases 254 - i
  {
    if i == 254 then 1 else 2 * InvertExponent(i + 1) + if i == 2 || i == 4 then 0 else 1
  }

  lemma {:induction false} InvertOnes(i: nat)
    requires 5 <= i <= 254
    ensures InvertExponent(i) == Pow2(255 - i) - 1
    decreases 254 - i
  {
    if i == 254 {
      assert Pow2(1) == 2;
    } else {
      InvertOnes(i + 1);
    }
  }

  /** All of them taken, the exponent is p - 2. */
  lemma InvertAll()
    ensures InvertExponent(0) == P - 2
  {
    hide Pow2;
    InvertOnes(5);
    Pow2At250();
    assert InvertExponent(4) == 2 * InvertExponent(5);
    assert InvertExponent(3) == 2 * InvertExponent(4) + 1;
    assert InvertExponent(2) == 2 * InvertExponent(3);
    assert InvertExponent(1) == 2 * InvertExponent(2) + 1;
    assert InvertExponent(0) == 2 * InvertExponent(1) + 1;
  }

  lemma Pow2At250()
    ensures Pow2(250) == 0x400_0000_0000_0000_0000_0000_0000_0000_0000_0000_0000_0000_0000_0000_0000_0000
  {
    Pow2At8();
    Pow2Of1();
    hide Pow2;
    Pow2Sum(1, 1);
    Pow2Sum(8, 8);
    Pow2Sum(16, 16);
    Pow2Sum(32, 32);
    Pow2Sum(64, 64);
    Pow2Sum(128, 64);
    Pow2Sum(192, 32);
    Pow2Sum(224, 16);
    Pow2Sum(240, 8);
    Pow2Sum(248, 2);
  }

  method Copy(to: array<int>, from: array<int>)
    requires to.Length == from.Length == 16 && to != from
    modifies to
    ensures to[..] == from[..]
  {
    for i := 0 to 16
      invariant forall k | 0 <= k < i :: to[k] == from[k]
    {
      to[i] := from[i];
    }
  }

  /** The inverse of an element, as its power p - 2. */
  method Invert(out: array<int>, a: array<int>)
    requires out.Length == a.Length == 16 && out != a && Loose(a[..])
    modifies out
    ensures Loose(out[..]) && Residue(out[..]) == Power(Residue(a[..]), P - 2)
  {
    hide Power, InvertExponent, Residue, Tight, Loose, Mul;
    var c := new int[16](_ => 0);
    var copy := new int[16](_ => 0);
    Copy(c, a);
    InvertExponentTop();
    PowerOne(Residue(a[..]));
    var i := 254;
    while i > 0
      invariant 0 <= i <= 254 && Loose(c[..]) && Loose(a[..])
      invariant Residue(c[..]) == Power(Residue(a[..]), InvertExponent(i))
    {
      i := i - 1;
      InvertExponentStep(i);
      PowerStep(Residue(a[..]), InvertExponent(i + 1), if i == 2 || i == 4 then 0 else 1);
      Copy(copy, c);
      Square(c, copy);
      TightLoose(c[..]);
      if i != 2 && i != 4 {
        Copy(copy, c);
        Multiply(c, copy, a);
        TightLoose(c[..]);
      }
    }
    InvertAll();
    Copy(out, c);
  }

  lemma InvertExponentTop()
    ensures InvertExponent(254) == 1
  {
  }

  lemma InvertExponentStep(i: nat)
    requires i < 254
    ensures InvertExponent(i) == 2 * InvertExponent(i + 1) + if i == 2 || i == 4 then 0 else 1
  {
  }
}
