/** SHA-256 fed in pieces: the compression function folded over the padded
    message of section 5.1.1 of FIPS 180-4, however the message was cut. */
module Sha256s {
  import opened Base
  import opened Streams

  type Words = s: seq<nat> | |s| == 8 witness [0, 0, 0, 0, 0, 0, 0, 0]
  type Compress = (Words, seq<byte>) -> Words

  const BLOCK: nat := 64
  const H0: Words := [0x6a09e667, 0xbb67ae85, 0x3c6ef372, 0xa54ff53a, 0x510e527f, 0x9b05688c, 0x1f83d9ab, 0x5be0cd19]
  const WIDTH: nat := 0x1_0000_0000_0000_0000

  /** The zeros after 0x80: as few as bring the length to 56 bytes into a block. */
  function ZeroCount(n: nat): (k: nat)
    ensures k < BLOCK && (n + 1 + k) % BLOCK == 56
  {
    (119 - n % BLOCK) % BLOCK
  }

  /** A message padded: 0x80, zeros, its length in bits on 64 bits. */
  function Padding(message: seq<byte>): seq<byte> {
    message + [0x80] + Zeros(ZeroCount(|message|)) + BigEndian(8 * |message| % WIDTH, 8)
  }

  function Digest(compress: Compress, message: seq<byte>): seq<byte> {
    WordBytes(Fold(compress, H0, Padding(message), BLOCK), 4)
  }

  lemma PaddingBlocks(message: seq<byte>)
    ensures |Padding(message)| % BLOCK == 0 && Rest(Padding(message), BLOCK) == []
  {
    hide Rest, BigEndian, Left;
    var n := |message| + 1 + ZeroCount(|message|);
    assert |Padding(message)| == n + 8;
    WholeAfter(n);
    Left64(|Padding(message)|);
  }

  lemma WholeAfter(n: nat)
    requires n % 64 == 56
    ensures (n + 8) % 64 == 0
  {
  }

  class Sha256 {
    const compress: Compress
    var state: Words
    var buffer: array<byte>
    var held: nat
    var total: nat
    /** Everything fed, padding included. */
    ghost var fed: seq<byte>

    ghost predicate Valid()
      reads this, buffer
    {
      && buffer.Length == 64 && held < 64
      && state == Fold(compress, H0, fed, BLOCK)
      && buffer[..held] == Rest(fed, BLOCK)
    }

    constructor (f: Compress)
      ensures Valid() && fresh(buffer) && compress == f && fed == [] && total == 0
    {
      compress := f;
      state := H0;
      buffer := new byte[64](_ => 0);
      held, total := 0, 0;
      fed := [];
      new;
      assert buffer[..0] == [];
    }

    /** A copy, so that a digest can be had of what was fed so far. */
    constructor Clone(from: Sha256)
      requires from.Valid()
      ensures Valid() && fresh(buffer) && compress == from.compress && fed == from.fed && total == from.total
    {
      compress, state := from.compress, from.state;
      buffer := new byte[64](i reads from, from.buffer requires 0 <= i < from.buffer.Length => from.buffer[i]);
      held, total, fed := from.held, from.total, from.fed;
      new;
      assert buffer[..held] == from.buffer[..held];
    }

    /** Takes in more of the message. */
    method Update(data: seq<byte>)
      requires Valid()
      modifies this`state, this`held, this`total, this`fed, buffer
      ensures Valid() && fed == old(fed) + data && total == (old(total) + |data|) % WIDTH
    {
      hide Fold, Rest;
      total := (total + |data|) % WIDTH;
      ghost var kept := buffer[..held];
      FoldOn(compress, H0, fed, data, BLOCK);
      fed := fed + data;
      var at := 0;
      if held > 0 {
        var take := if 64 - held < |data| then 64 - held else |data|;
        CopyIn(data[..take], held);
        held := held + take;
        at := take;
        assert buffer[..held] == kept + data[..take];
        if held < 64 {
          assert data[..take] == data;
          Short(kept + data);
          return;
        }
        assert kept + data == buffer[..] + data[at..];
        FoldBlock(compress, state, buffer[..], data[at..], BLOCK);
        state := compress(state, buffer[..]);
        held := 0;
      } else {
        assert kept + data == data[0..];
      }
      at := TakeBlocks(data, at);
      Short(data[at..]);
      CopyIn(data[at..], 0);
      held := |data| - at;
      assert buffer[..held] == data[at..];
    }

    /** Every whole block from `from` on. */
    method TakeBlocks(data: seq<byte>, from: nat) returns (at: nat)
      requires from <= |data|
      modifies this`state
      ensures from <= at <= |data| < at + 64
      ensures Fold(compress, state, data[at..], BLOCK) == old(Fold(compress, state, data[from..], BLOCK))
      ensures Rest(data[at..], BLOCK) == Rest(data[from..], BLOCK)
    {
      hide Fold, Rest;
      at := from;
      while at + 64 <= |data|
        invariant from <= at <= |data|
        invariant Fold(compress, state, data[at..], BLOCK) == old(Fold(compress, state, data[from..], BLOCK))
        invariant Rest(data[at..], BLOCK) == Rest(data[from..], BLOCK)
      {
        assert data[at..] == data[at..at + 64] + data[at + 64..];
        FoldBlock(compress, state, data[at..at + 64], data[at + 64..], BLOCK);
        state := compress(state, data[at..at + 64]);
        at := at + 64;
      }
    }

    lemma Short(data: seq<byte>)
      requires |data| < 64
      ensures forall s :: Fold(compress, s, data, BLOCK) == s
      ensures Rest(data, BLOCK) == data
    {
    }

    /** Copies bytes into the buffer, from `at` on. */
    method CopyIn(data: seq<byte>, at: nat)
      requires buffer.Length == 64 && at + |data| <= 64
      modifies buffer
      ensures buffer[..] == old(buffer[..at]) + data + old(buffer[at + |data|..])
    {
      for i := 0 to |data|
        invariant buffer[..] == old(buffer[..at]) + data[..i] + old(buffer[at + i..])
      {
        buffer[at + i] := data[i];
      }
      assert data[..|data|] == data;
    }

    /** As `Update`, with the length left alone. */
    method UpdateRaw(data: seq<byte>)
      requires Valid()
      modifies this`state, this`held, this`total, this`fed, buffer
      ensures Valid() && fed == old(fed) + data && total == old(total)
    {
      var kept := total;
      Update(data);
      total := kept;
    }

    /** The digest of everything fed. */
    method Finish() returns (out: seq<byte>)
      requires Valid() && total == |fed| % WIDTH
      modifies this`state, this`held, this`total, this`fed, buffer
      ensures out == Digest(compress, old(fed))
    {
      hide Fold, Rest, BigEndian, WordBytes, Digest;
      ghost var message := fed;
      var bits := total * 8 % WIDTH;
      BitsMod(|message|);
      UpdateRaw([0x80]);
      ghost var n := |message| + 1;
      ghost var zeros := 0;
      HeldIs();
      assert message + [0x80] + Zeros(0) == message + [0x80];
      while held != 56
        invariant Valid() && fed == message + [0x80] + Zeros(zeros) && zeros <= ZeroCount(|message|)
        invariant held == (n + zeros) % 64
        decreases ZeroCount(|message|) - zeros
      {
        NotYet(|message|, zeros);
        assert message + [0x80] + Zeros(zeros) + [0] == message + [0x80] + Zeros(zeros + 1);
        UpdateRaw([0]);
        zeros := zeros + 1;
        HeldIs();
      }
      Now(|message|, zeros);
      UpdateRaw(BigEndian(bits, 8));
      DigestIs(compress, message);
      out := WordBytes(state, 4);
    }

    lemma HeldIs()
      requires Valid()
      ensures held == |fed| % 64
    {
      hide Fold;
      assert held == |buffer[..held]|;
      Left64(|fed|);
    }
  }

  lemma BitsMod(n: nat)
    ensures n % WIDTH * 8 % WIDTH == 8 * n % WIDTH
  {
    ModTimes(n % WIDTH * 8, 8 * (n / WIDTH));
    assert n % WIDTH * 8 + WIDTH * (8 * (n / WIDTH)) == 8 * n;
  }

  lemma ModTimes(x: int, z: int)
    ensures (x + WIDTH * z) % WIDTH == x % WIDTH
  {
  }

  lemma NotYet(n: nat, zeros: nat)
    requires zeros <= ZeroCount(n) && (n + 1 + zeros) % 64 != 56
    ensures zeros < ZeroCount(n)
  {
  }

  lemma Now(n: nat, zeros: nat)
    requires zeros <= ZeroCount(n) && (n + 1 + zeros) % 64 == 56
    ensures zeros == ZeroCount(n)
  {
  }

  lemma DigestIs(compress: Compress, message: seq<byte>)
    ensures Digest(compress, message) == WordBytes(Fold(compress, H0, Padding(message), BLOCK), 4)
  {
  }

  /** However a message is cut, its digest is the same. */
  method HashPieces(compress: Compress, pieces: seq<seq<byte>>) returns (out: seq<byte>)
    ensures out == Digest(compress, Joined(pieces))
  {
    hide Digest, Joined;
    var hash := new Sha256(compress);
    assert pieces[..0] == [] && Joined([]) == [] by {
      JoinedNone();
    }
    for i := 0 to |pieces|
      invariant hash.Valid() && fresh(hash) && fresh(hash.buffer) && hash.compress == compress
      invariant hash.fed == Joined(pieces[..i]) && hash.total == |hash.fed| % WIDTH
    {
      assert pieces[..i + 1] == pieces[..i] + [pieces[i]];
      JoinedSnoc(pieces[..i], pieces[i]);
      ModSum(|hash.fed|, |pieces[i]|);
      hash.Update(pieces[i]);
    }
    assert pieces[..|pieces|] == pieces;
    out := hash.Finish();
  }

  lemma ModSum(a: nat, b: nat)
    ensures (a % WIDTH + b) % WIDTH == (a + b) % WIDTH
  {
    ModTimes(a % WIDTH + b, a / WIDTH);
  }
}
