/** What every component shares. */
module Base {
  type byte = x: int | 0 <= x < 256

  datatype Option<+T> = None | Some(value: T)

  /** Four bytes as a word, lowest first. */
  function Word(a: nat, b: nat, c: nat, d: nat): nat {
    a + 0x100 * b + 0x1_0000 * c + 0x100_0000 * d
  }

  /** A word as its four bytes. */
  function Le4(n: nat): (r: seq<byte>)
    ensures |r| == 4
  {
    [n % 0x100, n / 0x100 % 0x100, n / 0x1_0000 % 0x100, n / 0x100_0000 % 0x100]
  }

  lemma WordLe4(n: nat)
    requires n < 0x1_0000_0000
    ensures Word(Le4(n)[0], Le4(n)[1], Le4(n)[2], Le4(n)[3]) == n
  {
    var q1, r1 := n / 0x100, n % 0x100;
    var q2, r2 := q1 / 0x100, q1 % 0x100;
    var q3, r3 := q2 / 0x100, q2 % 0x100;
    assert n == 0x100 * q1 + r1 && q1 == 0x100 * q2 + r2 && q2 == 0x100 * q3 + r3;
    Div2(n, q2, 0x100 * r2 + r1);
    Div3(n, q3, 0x1_0000 * r3 + 0x100 * r2 + r1);
  }

  lemma Div2(n: nat, q: nat, r: nat)
    requires n == 0x1_0000 * q + r && r < 0x1_0000
    ensures n / 0x1_0000 == q
  {
  }

  lemma Div3(n: nat, q: nat, r: nat)
    requires n == 0x100_0000 * q + r && r < 0x100_0000
    ensures n / 0x100_0000 == q
  {
  }
}
