/** Bytes that arrive in pieces, taken in blocks: what is folded, and what is
    left over for the next piece. */
module Streams {
  import opened Base

  /** `f` over every whole block of `data`, in order. */
  function Fold<S>(f: (S, seq<byte>) -> S, s: S, data: seq<byte>, size: nat): S
    requires size > 0
    decreases |data|
  {
    if |data| < size then s else Fold(f, f(s, data[..size]), data[size..], size)
  }

  /** What is left after the whole blocks. */
  function Rest(data: seq<byte>, size: nat): (r: seq<byte>)
    requires size > 0
    ensures |r| < size && |r| == Left(|data|, size)
    decreases |data|
  {
    if |data| < size then data else Rest(data[size..], size)
  }

  function Left(n: nat, size: nat): nat
    requires size > 0
  {
    if n < size then n else Left(n - size, size)
  }

  lemma {:induction false} Left64(n: nat)
    ensures Left(n, 64) == n % 64
  {
    if n >= 64 {
      Left64(n - 64);
    }
  }

  lemma {:induction false} Left128(n: nat)
    ensures Left(n, 128) == n % 128
  {
    if n >= 128 {
      Left128(n - 128);
    }
  }

  /** Folding what was left over together with the next piece is folding both
      pieces at once. */
  lemma {:induction false} FoldOn<S>(f: (S, seq<byte>) -> S, s: S, a: seq<byte>, b: seq<byte>, size: nat)
    requires size > 0
    ensures Fold(f, s, a + b, size) == Fold(f, Fold(f, s, a, size), Rest(a, size) + b, size)
    ensures Rest(a + b, size) == Rest(Rest(a, size) + b, size)
    decreases |a|
  {
    if |a| >= size {
      assert (a + b)[..size] == a[..size] && (a + b)[size..] == a[size..] + b;
      FoldOn(f, f(s, a[..size]), a[size..], b, size);
    }
  }

  /** One whole block at the front. */
  lemma FoldBlock<S>(f: (S, seq<byte>) -> S, s: S, block: seq<byte>, rest: seq<byte>, size: nat)
    requires size > 0 && |block| == size
    ensures Fold(f, s, block + rest, size) == Fold(f, f(s, block), rest, size)
    ensures Rest(block + rest, size) == Rest(rest, size)
  {
    assert (block + rest)[..size] == block && (block + rest)[size..] == rest;
  }

  /** Pieces put end to end. */
  function Joined(pieces: seq<seq<byte>>): seq<byte> {
    if pieces == [] then [] else Joined(pieces[..|pieces| - 1]) + pieces[|pieces| - 1]
  }

  /** `n` big-endian bytes of a number. */
  function BigEndian(x: nat, n: nat): (r: seq<byte>)
    ensures |r| == n
  {
    if n == 0 then [] else BigEndian(x / 256, n - 1) + [x % 256]
  }

  function Zeros(n: nat): (r: seq<byte>)
    ensures |r| == n
  {
    seq(n, _ => 0)
  }

  /** The words of a state, as bytes. */
  function WordBytes(words: seq<nat>, size: nat): (r: seq<byte>) {
    if words == [] then [] else WordBytes(words[..|words| - 1], size) + BigEndian(words[|words| - 1], size)
  }

  lemma JoinedSnoc(pieces: seq<seq<byte>>, piece: seq<byte>)
    ensures Joined(pieces + [piece]) == Joined(pieces) + piece
  {
    assert (pieces + [piece])[..|pieces|] == pieces;
  }

  lemma JoinedNone()
    ensures Joined([]) == []
  {
  }
}
