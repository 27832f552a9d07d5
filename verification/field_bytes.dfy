/** Field elements to bytes and back. */
module FieldBytes {
  import opened Base
  import opened Numbers
  import opened Field25519

  const POW255: nat := 0x8000_0000_0000_0000_0000_0000_0000_0000_0000_0000_0000_0000_0000_0000_0000_0000

  /** Bytes taken two by two. */
  function Pairs(bytes: seq<int>): (r: seq<int>)
    requires |bytes| % 2 == 0
    ensures |r| == |bytes| / 2
  {
    seq(|bytes| / 2, i requires 0 <= i < |bytes| / 2 => bytes[2 * i] + 0x100 * bytes[2 * i + 1])
  }

  lemma {:induction false} PairsValue(bytes: seq<int>)
    requires |bytes| % 2 == 0
    ensures Val(Pairs(bytes)) == Val8(bytes)
  {
    if bytes != [] {
      assert bytes[1..][1..] == bytes[2..];
      assert Pairs(bytes)[1..] == Pairs(bytes[2..]);
      PairsValue(bytes[2..]);
    }
  }

  lemma TopLimb()
    ensures 0x8000 * W16(15) == POW255 && W16(16) == POW256
  {
    W16At16();
    hide W16;
    W16Sum(1, 15);
  }

  /** The element 32 bytes stand for, their top bit ignored. */
  method Unpack(out: array<int>, bytes: seq<byte>)
    requires out.Length == 16 && |bytes| == 32
    modifies out
    ensures Tight(out[..]) && Val(out[..]) == Val8(bytes) % POW255 && Residue(out[..]) == Val8(bytes) % POW255 % P
  {
    hide Val, Val8, W16;
    for i := 0 to 16
      invariant forall k | 0 <= k < i :: out[k] == bytes[2 * k] as int + 0x100 * bytes[2 * k + 1] as int
    {
      out[i] := bytes[2 * i] as int + 0x100 * bytes[2 * i + 1] as int;
    }
    ghost var all := out[..];
    assert all == Pairs(bytes);
    PairsValue(bytes);
    out[15] := out[15] % 0x8000;
    assert out[..] == all[15 := all[15] + -0x8000 * (all[15] / 0x8000)];
    ValPlus(all, 15, -0x8000 * (all[15] / 0x8000));
    TopLimb();
    TopCleared(W16(15), all[15] / 0x8000);
    Cleared(out[..]);
    ModUnique(Val(all), Val(out[..]), all[15] / 0x8000);
  }

  lemma TopCleared(w: int, q: int)
    requires 0x8000 * w == POW255
    ensures w * (-0x8000 * q) == -(POW255 * q)
  {
  }

  lemma Cleared(s: seq<int>)
    requires |s| == 16 && (forall i | 0 <= i < 16 :: 0 <= s[i] < 0x1_0000) && s[15] < 0x8000
    ensures 0 <= Val(s) < POW255
  {
    hide Val, W16;
    TopLimb();
    assert s == s[..15] + [s[15]];
    ValSnoc(s[..15], s[15]);
    ValRange(s[..15]);
    AtMost(W16(15), s[15], 0x7FFF);
  }

  lemma AtMost(w: nat, x: int, y: int)
    requires x <= y
    ensures w * x <= w * y
  {
  }

  lemma ModUnique(x: int, r: int, q: int)
    requires x == r + POW255 * q && 0 <= r < POW255
    ensures x % POW255 == r
  {
  }

  // ---- Packing ----------------------------------------------------------------------------------

  predicate Limbs(s: seq<int>) {
    |s| == 16 && forall i | 0 <= i < 16 :: 0 <= s[i] < 0x1_0000
  }

  /** From tight limbs, a carry leaves the top only when it runs all the way. */
  lemma {:induction false} OutSign(s: seq<int>, i: nat)
    requires Tight(s) && 1 <= i <= 16
    ensures -1 <= Out(s, i) <= 1
    ensures Out(s, i) != 0 ==> Out(s, i) == Out(s, 1)
  {
    if i > 1 {
      OutSign(s, i - 1);
    }
  }

  /** A third pass puts every limb in its sixteen bits. */
  lemma CarriedThird(s: seq<int>)
    requires Tight(s)
    ensures Limbs(Carried(s))
  {
    OutSign(s, 16);
    assert Out(s, 0) == 0;
    assert Out(s, 1) == s[0] / 0x1_0000;
    hide Out;
  }

  function PLimb(i: nat): nat {
    if i == 0 then 0xFFED else if i < 15 then 0xFFFF else 0x7FFF
  }

  function PLimbs(n: nat): (r: seq<int>)
    ensures |r| == n
  {
    seq(n, i requires 0 <= i < n => PLimb(i))
  }

  /** The limbs of p stand for p. */
  lemma PValue()
    ensures Val(PLimbs(16)) == P
  {
    hide Val, W16;
    TopLimb();
    OnesValue(15);
    assert PLimbs(16) == PLimbs(15) + [0x7FFF];
    ValSnoc(PLimbs(15), 0x7FFF);
  }

  lemma {:induction false} OnesValue(n: nat)
    requires 1 <= n <= 15
    ensures Val(PLimbs(n)) == W16(n) - 19
  {
    hide Val;
    if n == 1 {
      assert PLimbs(1) == [0xFFED];
      ValOne(0xFFED);
    } else {
      OnesValue(n - 1);
      assert PLimbs(n) == PLimbs(n - 1) + [0xFFFF];
      ValSnoc(PLimbs(n - 1), 0xFFFF);
    }
  }

  /** The subtraction of p from `value` after limb `i`, borrows passed on but
      for the last. */
  ghost predicate Minus(value: seq<int>, minus: seq<int>, i: nat) {
    && |value| == |minus| == 16 && i < 16
    && (forall k | 0 <= k < i :: 0 <= minus[k] < 0x1_0000)
    && -0x1_0000 <= minus[i] < 0x1_0000
    && Val(minus[..i + 1]) == Val(value[..i + 1]) - Val(PLimbs(i + 1))
  }

  lemma MinusStart(value: seq<int>, minus: seq<int>)
    requires Limbs(value) && |minus| == 16 && minus[0] == value[0] - 0xFFED
    ensures Minus(value, minus, 0)
  {
    hide Val;
    assert minus[..1] == [minus[0]] && value[..1] == [value[0]] && PLimbs(1) == [0xFFED];
    ValOne(minus[0]);
    ValOne(value[0]);
    ValOne(0xFFED);
  }

  lemma MinusStep(value: seq<int>, minus: seq<int>, next: seq<int>, i: nat)
    requires 1 <= i < 16 && Limbs(value) && Minus(value, minus, i - 1)
    requires var borrow := minus[i - 1] / 0x1_0000 % 2;
             next == minus[i := value[i] - PLimb(i) - borrow][i - 1 := minus[i - 1] % 0x1_0000]
    ensures Minus(value, next, i)
  {
    hide Val, W16, PLimb;
    var borrow := minus[i - 1] / 0x1_0000 % 2;
    assert 0 <= PLimb(i) <= 0xFFFF by {
      PLimbRange(i);
    }
    var front := minus[..i];
    assert borrow == -(minus[i - 1] / 0x1_0000);
    assert next[..i] == front[i - 1 := front[i - 1] + 0x1_0000 * borrow];
    ValPlus(front, i - 1, 0x1_0000 * borrow);
    assert next[..i + 1] == next[..i] + [next[i]];
    assert value[..i + 1] == value[..i] + [value[i]];
    assert PLimbs(i + 1) == PLimbs(i) + [PLimb(i)];
    ValSnoc(next[..i], next[i]);
    ValSnoc(value[..i], value[i]);
    ValSnoc(PLimbs(i), PLimb(i));
    BorrowMoves(i, borrow, value[i], PLimb(i));
    assert minus[..i] == minus[..i - 1 + 1];
  }

  lemma PLimbRange(i: nat)
    ensures 0 <= PLimb(i) <= 0xFFFF
  {
  }

  lemma BorrowMoves(i: nat, b: int, x: int, y: int)
    requires i > 0
    ensures W16(i - 1) * (0x1_0000 * b) + W16(i) * (x - y - b) == W16(i) * x - W16(i) * y
  {
    assert W16(i) == 0x1_0000 * W16(i - 1);
    var w := W16(i - 1);
    assert w * (0x1_0000 * b) == 0x1_0000 * w * b;
    Distribute(0x1_0000 * w, x, y, b);
  }

  lemma Distribute(w: int, x: int, y: int, b: int)
    ensures w * (x - y - b) == w * x - w * y - w * b
  {
  }

  /** The last borrow says on which side of p the number was. */
  lemma MinusDone(value: seq<int>, minus: seq<int>)
    requires Limbs(value) && Minus(value, minus, 15)
    ensures Val(minus) == Val(value) - P
    ensures minus[15] < 0 <==> Val(value) < P
    ensures minus[15] >= 0 ==> Limbs(minus)
  {
    hide Val, W16;
    PValue();
    TopLimb();
    assert value[..16] == value && minus[..16] == minus;
    assert minus == minus[..15] + [minus[15]];
    ValSnoc(minus[..15], minus[15]);
    ValRange(minus[..15]);
    if minus[15] < 0 {
      AtMost(W16(15), minus[15], -1);
    } else {
      AtMost(W16(15), 0, minus[15]);
    }
  }

  /** Takes p away when that leaves something: one of the two conditional
      subtractions of `pack`. */
  method Reduce(value: array<int>)
    requires value.Length == 16 && Limbs(value[..])
    modifies value
    ensures Limbs(value[..])
    ensures Val(value[..]) == var v := old(Val(value[..])); if v < P then v else v - P
  {
    hide Val, Minus;
    ghost var v := value[..];
    var minus := new int[16](_ => 0);
    minus[0] := I64(value[0] - 0xFFED);
    MinusStart(v, minus[..]);
    for i := 1 to 15
      invariant value[..] == v && Minus(v, minus[..], i - 1)
    {
      ghost var before := minus[..];
      MinusIs(v, before, i - 1);
      minus[i] := I64(value[i] - 0xFFFF - minus[i - 1] / 0x1_0000 % 2);
      minus[i - 1] := minus[i - 1] % 0x1_0000;
      MinusStep(v, before, minus[..], i);
    }
    ghost var before := minus[..];
    MinusIs(v, before, 14);
    minus[15] := I64(value[15] - 0x7FFF - minus[14] / 0x1_0000 % 2);
    var borrowed := minus[15] / 0x1_0000 % 2;
    minus[14] := minus[14] % 0x1_0000;
    MinusStep(v, before, minus[..], 15);
    MinusIs(v, minus[..], 15);
    MinusDone(v, minus[..]);
    assert borrowed == 1 <==> minus[15] < 0;
    ConditionalSwap(value, minus, 1 - borrowed);
  }

  lemma MinusIs(value: seq<int>, minus: seq<int>, i: nat)
    requires Minus(value, minus, i)
    ensures |minus| == 16 && -0x1_0000 <= minus[i] < 0x1_0000 && forall k | 0 <= k < i :: 0 <= minus[k] < 0x1_0000
  {
  }

  /** The 32 bytes of an element: the number below p it stands for, lowest byte
      first. Three carry passes and two subtractions are always enough. */
  method Pack(field: array<int>) returns (out: seq<byte>)
    requires field.Length == 16 && Within(field[..], 0x4000_0000_0000_0000)
    ensures |out| == 32 && Val8(out) == Residue(field[..])
  {
    hide Val, Val8, Carried, Tight, Once, Residue, Out;
    ghost var s := field[..];
    var value := new int[16](_ => 0);
    Copy(value, field);
    CarriedOnce(s);
    OnceWithin(Carried(s));
    CarriedTwice(Carried(s));
    TightWithin(Carried(Carried(s)));
    CarriedThird(Carried(Carried(s)));
    ThriceValue(s);
    Carry(value);
    Carry(value);
    Carry(value);
    ValRange(value[..]);
    W16At16();
    ghost var v := Val(value[..]);
    Reduce(value);
    Reduce(value);
    ReducedTwice(v, Val(value[..]));
    out := ToBytes(value);
  }

  /** Limbs to bytes. */
  method ToBytes(value: array<int>) returns (out: seq<byte>)
    requires value.Length == 16 && Limbs(value[..])
    ensures |out| == 32 && Val8(out) == Val(value[..])
  {
    hide Val, Val8;
    out := [];
    for i := 0 to 16
      invariant |out| == 2 * i
      invariant forall k | 0 <= k < i :: out[2 * k] == value[k] % 0x100 && out[2 * k + 1] == value[k] / 0x100
    {
      out := out + [value[i] % 0x100, value[i] / 0x100 % 0x100];
    }
    assert Pairs(out) == value[..];
    PairsValue(out);
  }

  lemma TightWithin(s: seq<int>)
    requires Tight(s)
    ensures Within(s, 0x4000_0000_0000_0000)
  {
  }

  lemma ThriceValue(s: seq<int>)
    requires |s| == 16
    ensures Val(Carried(Carried(Carried(s)))) % P == Residue(s)
  {
    hide Val, Carried, Out;
    CarriedValue(s);
    CarriedValue(Carried(s));
    CarriedValue(Carried(Carried(s)));
    var k := 2 * (Out(s, 16) + Out(Carried(s), 16) + Out(Carried(Carried(s)), 16));
    assert Val(Carried(Carried(Carried(s)))) == Val(s) - P * k;
    ModShift(Val(s), k);
  }

  lemma ReducedTwice(v: int, r: int)
    requires 0 <= v < POW256
    requires var u := if v < P then v else v - P; r == if u < P then u else u - P
    ensures r == v % P
  {
  }
}
