/** What the hashes start from and what they are fed, bytes and constants, against
    sections 5.1 and 5.3 of FIPS 180-4. */
module HashFormats {
  import opened Base
  import opened Numbers
  import opened Streams
  import Sha256s
  import Sha512s

  // ---- Big-endian numbers -----------------------------------------------------------------------

  /** Byte `i` of a number, highest first. */
  lemma {:induction false} BigEndianAt(x: nat, n: nat, i: nat)
    requires i < n
    ensures BigEndian(x, n)[i] == x / W8(n - 1 - i) % 256
  {
    if i < n - 1 {
      BigEndianAt(x / 256, n - 1, i);
      DivTwice(x, W8(n - 2 - i));
    } else {
      assert W8(0) == 1;
    }
  }

  lemma DivTwice(x: nat, w: nat)
    requires w > 0
    ensures x / 256 / w == x / (256 * w)
  {
    var q, r := x / 256, x % 256;
    var a, b := q / w, q % w;
    assert x == 256 * (w * a + b) + r;
    assert 256 * (w * a) == 256 * w * a;
    DivIs(x, 256 * w, a, 256 * b + r);
  }

  /** `n` bytes of a number, highest first. */
  function HighFirst(x: nat, n: nat): (r: seq<byte>)
    ensures |r| == n
  {
    seq(n, i requires 0 <= i < n => x / W8(n - 1 - i) % 256)
  }

  lemma BigEndianIs(x: nat, n: nat)
    ensures BigEndian(x, n) == HighFirst(x, n)
  {
    hide BigEndian, W8;
    forall i | 0 <= i < n
      ensures BigEndian(x, n)[i] == HighFirst(x, n)[i]
    {
      BigEndianAt(x, n, i);
    }
  }

  /** Byte `j` of word `i`. */
  lemma {:induction false} WordBytesAt(words: seq<nat>, size: nat, i: nat, j: nat)
    requires i < |words| && j < size
    ensures |WordBytes(words, size)| == size * |words| && size * i + j < size * |words|
    ensures WordBytes(words, size)[size * i + j] == words[i] / W8(size - 1 - j) % 256
  {
    var n := |words| - 1;
    WordBytesSize(words, size);
    WordBytesSize(words[..n], size);
    Inside(size, i, |words|, j);
    if i < n {
      WordBytesAt(words[..n], size, i, j);
    } else {
      BigEndianAt(words[n], size, j);
    }
  }

  lemma Inside(size: nat, i: nat, n: nat, j: nat)
    requires i < n && j < size
    ensures size * i + j < size * n && (i < n - 1 ==> size * i + j < size * (n - 1))
  {
    AtMost(size, i + 1, n);
    if i < n - 1 {
      AtMost(size, i + 1, n - 1);
    }
    assert size * (i + 1) == size * i + size;
  }

  lemma AtMost(w: nat, x: int, y: int)
    requires x <= y
    ensures w * x <= w * y
  {
  }

  lemma {:induction false} WordBytesSize(words: seq<nat>, size: nat)
    ensures |WordBytes(words, size)| == size * |words|
  {
    if words != [] {
      WordBytesSize(words[..|words| - 1], size);
      assert size * |words| == size * (|words| - 1) + size;
    }
  }

  // ---- Padding ----------------------------------------------------------------------------------

  /** SHA-256: whole blocks of 64 bytes, as few as hold the message, a byte 0x80 and
      the length in bits on eight bytes, with zeros between. */
  lemma Padding256(message: seq<byte>)
    ensures var p, n := Sha256s.Padding(message), |message|;
            && |p| % 64 == 0 && n + 9 <= |p| < n + 9 + 64
            && p[..n] == message && p[n] == 0x80 && (forall i | n < i < |p| - 8 :: p[i] == 0)
            && p[|p| - 8..] == HighFirst(8 * n % 0x1_0000_0000_0000_0000, 8)
  {
    hide BigEndian, HighFirst;
    Sha256s.PaddingBlocks(message);
    BigEndianIs(8 * |message| % Sha256s.WIDTH, 8);
  }

  /** SHA-512: blocks of 128 bytes, the length on sixteen. */
  lemma Padding512(message: seq<byte>)
    ensures var p, n := Sha512s.Padding(message), |message|;
            && |p| % 128 == 0 && n + 17 <= |p| < n + 17 + 128
            && p[..n] == message && p[n] == 0x80 && (forall i | n < i < |p| - 16 :: p[i] == 0)
            && p[|p| - 16..] == HighFirst(8 * n % 0x1_0000_0000_0000_0000_0000_0000_0000_0000, 16)
  {
    hide BigEndian, HighFirst;
    Sha512s.PaddingBlocks(message);
    BigEndianIs(8 * |message| % Sha512s.WIDTH, 16);
  }

  // ---- The first hash value ---------------------------------------------------------------------

  /** The first eight primes, and their square roots rounded down. */
  const PRIMES: seq<nat> := [2, 3, 5, 7, 11, 13, 17, 19]
  const ROOTS: seq<nat> := [1, 1, 2, 2, 3, 3, 4, 4]

  /** `fraction` is the start of the fractional part of the square root of `prime`,
      in units of 1 / `unit`. */
  predicate RootPart(prime: nat, root: nat, fraction: nat, unit: nat) {
    && fraction < unit
    && (root * unit + fraction) * (root * unit + fraction) <= prime * unit * unit
    && prime * unit * unit < (root * unit + fraction + 1) * (root * unit + fraction + 1)
  }

  /** The words SHA-256 starts from: 32 bits of those square roots. */
  lemma Start256(i: nat)
    requires i < 8
    ensures RootPart(PRIMES[i], ROOTS[i], Sha256s.H0[i], 0x1_0000_0000)
  {
  }

  /** And SHA-512: 64 bits of them. */
  lemma Start512(i: nat)
    requires i < 8
    ensures RootPart(PRIMES[i], ROOTS[i], Sha512s.H0[i], 0x1_0000_0000_0000_0000)
  {
  }
}
