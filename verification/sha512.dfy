/** SHA-512 fed in pieces: the compression function folded over the padded
    message of section 5.1.2 of FIPS 180-4, however the message was cut. */
module Sha512s {
  import opened Base
  import opened Streams

  type Words = s: seq<nat> | |s| == 8 witness [0, 0, 0, 0, 0, 0, 0, 0]
  type Compress = (Words, seq<byte>) -> Words

  const BLOCK: nat := 128
  const H0: Words := [0x6a09e667f3bcc908, 0xbb67ae8584caa73b, 0x3c6ef372fe94f82b, 0xa54ff53a5f1d36f1,
                      0x510e527fade682d1, 0x9b05688c2b3e6c1f, 0x1f83d9abfb41bd6b, 0x5be0cd19137e2179]
  const WIDTH: nat := 0x1_0000_0000_0000_0000_0000_0000_0000_0000

  /** The zeros after 0x80: as few as bring the length to 112 bytes into a block. */
  function ZeroCount(n: nat): (k: nat)
    ensures k < BLOCK && (n + 1 + k) % BLOCK == 112
  {
    (239 - n % BLOCK) % BLOCK
  }

  /** The padded message of section 5.1.2. */
  function Padding(message: seq<byte>): seq<byte> {
    message + [0x80] + Zeros(ZeroCount(|message|)) + BigEndian(8 * |message| % WIDTH, 16)
  }

  function Digest(compress: Compress, message: seq<byte>): seq<byte> {
    WordBytes(Fold(compress, H0, Padding(message), BLOCK), 8)
  }

  lemma PaddingBlocks(message: seq<byte>)
    ensures |Padding(message)| % BLOCK == 0 && Rest(Padding(message), BLOCK) == []
  {
    hide Rest, BigEndian, Left;
    var n := |message| + 1 + ZeroCount(|message|);
    assert |Padding(message)| == n + 16;
    WholeAfter(n);
    Left128(|Padding(message)|);
  }

  lemma WholeAfter(n: nat)
    requires n % 128 == 112
    ensures (n + 16) % 128 == 0
  {
  }

  class Sha512 {
    const compress: Compress
    var state: Words
    var buffer: array<byte>
    var held: nat
    var length: nat
    /** Everything fed, padding included. */
    ghost var fed: seq<byte>

    ghost predicate Valid()
      reads this, buffer
    {
      && buffer.Length == 128 && held < 128
      && state == Fold(compress, H0, fed, BLOCK)
      && buffer[..held] == Rest(fed, BLOCK)
    }

    constructor (f: Compress)
      ensures Valid() && fresh(buffer) && compress == f && fed == [] && length == 0
    {
      compress := f;
      state := H0;
      buffer := new byte[128](_ => 0);
      held, length := 0, 0;
      fed := [];
      new;
      assert buffer[..0] == [];
    }

    /** Takes in more of the message. */
    method Update(data: seq<byte>)
      requires Valid()
      modifies this`state, this`held, this`length, this`fed, buffer
      ensures Valid() && fed == old(fed) + data && length == (old(length) + |data|) % WIDTH
    {
      hide Fold, Rest;
      length := (length + |data|) % WIDTH;
      ghost var kept := buffer[..held];
      FoldOn(compress, H0, fed, data, BLOCK);
      fed := fed + data;
      var at := 0;
      if held > 0 {
        var take := if 128 - held < |data| then 128 - held else |data|;
        CopyIn(data[..take], held);
        held := held + take;
        at := take;
        assert buffer[..held] == kept + data[..take];
        if held < 128 {
          assert data[..take] == data;
          Short(kept + data);
          return;
        }
        assert kept + data == buffer[..] + data[at..];
        FoldBlock(compress, state, buffer[..], data[at..], BLOCK);
        state := compress(state, buffer[..]);
        held := 0;
      } else {
        assert kept + data == data[0..];
      }
      at := TakeBlocks(data, at);
      Short(data[at..]);
      CopyIn(data[at..], 0);
      held := |data| - at;
      assert buffer[..held] == data[at..];
    }

    /** Every whole block from `from` on. */
    method TakeBlocks(data: seq<byte>, from: nat) returns (at: nat)
      requires from <= |data|
      modifies this`state
      ensures from <= at <= |data| < at + 128
      ensures Fold(compress, state, data[at..], BLOCK) == old(Fold(compress, state, data[from..], BLOCK))
      ensures Rest(data[at..], BLOCK) == Rest(data[from..], BLOCK)
    {
      hide Fold, Rest;
      at := from;
      while at + 128 <= |data|
        invariant from <= at <= |data|
        invariant Fold(compress, state, data[at..], BLOCK) == old(Fold(compress, state, data[from..], BLOCK))
        invariant Rest(data[at..], BLOCK) == Rest(data[from..], BLOCK)
      {
        assert data[at..] == data[at..at + 128] + data[at + 128..];
        FoldBlock(compress, state, data[at..at + 128], data[at + 128..], BLOCK);
        state := compress(state, data[at..at + 128]);
        at := at + 128;
      }
    }

    lemma Short(data: seq<byte>)
      requires |data| < 128
      ensures forall s :: Fold(compress, s, data, BLOCK) == s
      ensures Rest(data, BLOCK) == data
    {
    }

    /** Copies bytes into the buffer, from `at` on. */
    method CopyIn(data: seq<byte>, at: nat)
      requires buffer.Length == 128 && at + |data| <= 128
      modifies buffer
      ensures buffer[..] == old(buffer[..at]) + data + old(buffer[at + |data|..])
    {
      for i := 0 to |data|
        invariant buffer[..] == old(buffer[..at]) + data[..i] + old(buffer[at + i..])
      {
        buffer[at + i] := data[i];
      }
      assert data[..|data|] == data;
    }

    /** The digest of everything fed. */
    method Finish() returns (out: seq<byte>)
      requires Valid() && length == |fed| % WIDTH
      modifies this`state, this`held, this`length, this`fed, buffer
      ensures out == Digest(compress, old(fed))
    {
      hide Fold, Rest, BigEndian, WordBytes, Digest;
      ghost var message := fed;
      var bits := length * 8 % WIDTH;
      BitsMod(|message|);
      HeldIs();
      var pad := if held < 112 then 112 - held else 240 - held;
      PadIs(|message|);
      var tail := [0x80] + Zeros(pad - 1) + BigEndian(bits, 16);
      var kept := length;
      Update(tail);
      length := kept;
      assert message + tail == message + [0x80] + Zeros(pad - 1) + BigEndian(bits, 16);
      DigestIs(compress, message);
      out := WordBytes(state, 8);
    }

    lemma HeldIs()
      requires Valid()
      ensures held == |fed| % 128
    {
      hide Fold;
      assert held == |buffer[..held]|;
      Left128(|fed|);
    }
  }

  /** The single formula for the padding gives the fewest zeros. */
  lemma PadIs(n: nat)
    ensures ZeroCount(n) == (if n % 128 < 112 then 112 - n % 128 else 240 - n % 128) - 1
  {
  }

  lemma BitsMod(n: nat)
    ensures n % WIDTH * 8 % WIDTH == 8 * n % WIDTH
  {
    ModTimes(n % WIDTH * 8, 8 * (n / WIDTH));
    assert n % WIDTH * 8 + WIDTH * (8 * (n / WIDTH)) == 8 * n;
  }

  lemma ModTimes(x: int, z: int)
    ensures (x + WIDTH * z) % WIDTH == x % WIDTH
  {
  }

  lemma DigestIs(compress: Compress, message: seq<byte>)
    ensures Digest(compress, message) == WordBytes(Fold(compress, H0, Padding(message), BLOCK), 8)
  {
  }

  /** However a message is cut, its digest is the same. */
  method HashPieces(compress: Compress, pieces: seq<seq<byte>>) returns (out: seq<byte>)
    ensures out == Digest(compress, Joined(pieces))
  {
    hide Digest, Joined;
    var hash := new Sha512(compress);
    assert pieces[..0] == [] && Joined([]) == [] by {
      JoinedNone();
    }
    for i := 0 to |pieces|
      invariant hash.Valid() && fresh(hash) && fresh(hash.buffer) && hash.compress == compress
      invariant hash.fed == Joined(pieces[..i]) && hash.length == |hash.fed| % WIDTH
    {
      assert pieces[..i + 1] == pieces[..i] + [pieces[i]];
      JoinedSnoc(pieces[..i], pieces[i]);
      ModSum(|hash.fed|, |pieces[i]|);
      hash.Update(pieces[i]);
    }
    assert pieces[..|pieces|] == pieces;
    out := hash.Finish();
  }

  lemma ModSum(a: nat, b: nat)
    ensures (a % WIDTH + b) % WIDTH == (a + b) % WIDTH
  {
    ModTimes(a % WIDTH + b, a / WIDTH);
  }
}
