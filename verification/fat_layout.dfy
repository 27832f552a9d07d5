/** Where things are on a FAT32 volume, and what its sectors say: FAT entries,
    the sectors of clusters, the bytes of a chain. */
module FatLayout {
  import opened Base
  import opened Blocks

  /** The least entry that is an end of chain, and the one written for it. */
  const END_OF_CHAIN: nat := 0x0FFF_FFF8
  const END_MARK: nat := 0x0FFF_FFFF
  /** The low 28 bits of a FAT word are the entry, the high four are reserved. */
  const LOW28: nat := 0x1000_0000

  /** A file name, as UTF-16 units. */
  type Name = seq<nat>

  /** An opened volume. `fold` is the lower-case form names are compared in. */
  datatype Volume = Volume(spc: nat, fatStart: nat, fatSize: nat, fats: nat, dataStart: nat,
                           root: nat, clusters: nat, fsinfo: Option<nat>, fold: Name -> Name)
  {
    ghost predicate Ok() {
      && 0 < spc
      && fatStart + fatSize <= dataStart
      && fatStart + Times(fats, fatSize) <= dataStart
      && clusters + 2 <= fatSize * 128
      && clusters + 2 <= END_OF_CHAIN
      && InRange(root)
      && (fsinfo.Some? ==> fsinfo.value < fatStart)
    }

    ghost predicate Holds(d: Image) {
      Ok() && Lba(clusters + 2) <= |d|
    }

    predicate InRange(c: nat) {
      2 <= c < clusters + 2
    }

    ghost predicate AllIn(chain: seq<nat>) {
      forall i | 0 <= i < |chain| :: InRange(chain[i])
    }

    /** The first sector of a cluster: they follow each other from `dataStart`. */
    function Lba(c: nat): (r: nat)
      ensures dataStart <= r
    {
      if c <= 2 then dataStart else Lba(c - 1) + spc
    }

    predicate SameName(a: Name, b: Name) {
      fold(a) == fold(b)
    }
  }

  // ---- FAT entries ------------------------------------------------------------------------------

  /** The little-endian word `slot` of a FAT sector. */
  function Raw(s: Sector, slot: nat): (r: nat)
    requires slot < 128
    ensures r < 0x1_0000_0000
  {
    Word(s[4 * slot], s[4 * slot + 1], s[4 * slot + 2], s[4 * slot + 3])
  }

  /** The entry of cluster `c`, read from the first FAT copy. */
  function Fat(v: Volume, d: Image, c: nat): (r: nat)
    requires v.fatStart + c / 128 < |d|
    ensures r < LOW28
  {
    Raw(d[v.fatStart + c / 128], c % 128) % LOW28
  }

  /** The sector with its word `slot` replaced by four bytes. */
  function PutWord(s: Sector, slot: nat, b: seq<byte>): Sector
    requires slot < 128 && |b| == 4
  {
    s[4 * slot := b[0]][4 * slot + 1 := b[1]][4 * slot + 2 := b[2]][4 * slot + 3 := b[3]]
  }

  /** Replacing one word of a sector changes that word and no other. */
  lemma RawAfter(s: Sector, slot: nat, n: nat, other: nat)
    requires slot < 128 && other < 128 && n < 0x1_0000_0000
    ensures Raw(PutWord(s, slot, Le4(n)), other) == if other == slot then n else Raw(s, other)
  {
    hide Le4, Word;
    WordLe4(n);
    if other != slot {
      assert 4 * other + 3 < 4 * slot || 4 * slot + 3 < 4 * other;
    }
  }

  // ---- Sectors of clusters ----------------------------------------------------------------------

  lemma {:induction false} LbaFormula(v: Volume, c: nat)
    requires 2 <= c
    ensures v.Lba(c) == v.dataStart + (c - 2) * v.spc
  {
    if c > 2 {
      LbaFormula(v, c - 1);
    }
  }

  lemma {:induction false} LbaMono(v: Volume, a: nat, b: nat)
    requires 2 <= a < b
    ensures v.Lba(a) + v.spc <= v.Lba(b)
  {
    if a < b - 1 {
      LbaMono(v, a, b - 1);
    }
  }

  /** Sector `s` holds data of cluster `c`. */
  ghost predicate Owns(v: Volume, c: nat, s: nat) {
    v.InRange(c) && v.Lba(c) <= s < v.Lba(c) + v.spc
  }

  lemma OwnerUnique(v: Volume, c: nat, c': nat, s: nat)
    requires Owns(v, c, s) && Owns(v, c', s)
    ensures c == c'
  {
    if c < c' {
      LbaMono(v, c, c');
    } else if c' < c {
      LbaMono(v, c', c);
    }
  }

  lemma OwnedInside(v: Volume, d: Image, c: nat, s: nat)
    requires v.Holds(d) && Owns(v, c, s)
    ensures v.dataStart <= s < |d|
  {
    LbaMono(v, c, v.clusters + 2);
  }

  function Span(from: nat, n: nat): (r: seq<nat>)
    ensures |r| == n
  {
    seq(n, i requires 0 <= i < n => from + i)
  }

  /** Every sector of a chain's clusters, in order. */
  function ChainLbas(v: Volume, chain: seq<nat>): (r: seq<nat>) {
    if chain == [] then [] else Span(v.Lba(chain[0]), v.spc) + ChainLbas(v, chain[1..])
  }

  lemma {:induction false} ChainLbasConcat(v: Volume, a: seq<nat>, b: seq<nat>)
    ensures ChainLbas(v, a + b) == ChainLbas(v, a) + ChainLbas(v, b)
  {
    if a == [] {
      assert a + b == b;
    } else {
      assert (a + b)[1..] == a[1..] + b;
      ChainLbasConcat(v, a[1..], b);
    }
  }

  /** `n` times `m`, by addition. */
  function Times(n: nat, m: nat): nat {
    if n == 0 then 0 else m + Times(n - 1, m)
  }

  lemma {:induction false} TimesFormula(n: nat, m: nat)
    ensures Times(n, m) == n * m
  {
    if n > 0 {
      TimesFormula(n - 1, m);
    }
  }

  lemma {:induction false} TimesMono(n: nat, m: nat, k: nat)
    requires n <= m
    ensures Times(n, k) <= Times(m, k)
    ensures n < m ==> Times(n, k) + k <= Times(m, k)
  {
    if n > 0 {
      TimesMono(n - 1, m - 1, k);
    }
  }

  lemma {:induction false} ChainLbasLength(v: Volume, chain: seq<nat>)
    ensures |ChainLbas(v, chain)| == Times(|chain|, v.spc)
  {
    if chain != [] {
      ChainLbasLength(v, chain[1..]);
    }
  }

  lemma {:induction false} ChainLbasAt(v: Volume, chain: seq<nat>, j: nat, r: nat)
    requires j < |chain| && r < v.spc
    ensures Times(j, v.spc) + r < |ChainLbas(v, chain)|
    ensures ChainLbas(v, chain)[Times(j, v.spc) + r] == v.Lba(chain[j]) + r
  {
    if j > 0 {
      ChainLbasAt(v, chain[1..], j - 1, r);
    }
  }

  /** A sector of a chain is a data sector of one of its clusters. */
  lemma {:induction false} ChainOwner(v: Volume, chain: seq<nat>, i: nat) returns (j: nat)
    requires v.AllIn(chain) && i < |ChainLbas(v, chain)|
    ensures j < |chain| && Owns(v, chain[j], ChainLbas(v, chain)[i])
  {
    if i < v.spc {
      j := 0;
    } else {
      j := ChainOwner(v, chain[1..], i - v.spc);
      j := j + 1;
    }
  }

  /** The sectors of a duplicate-free chain are all different. */
  lemma {:induction false} ChainLbasDistinct(v: Volume, chain: seq<nat>)
    requires v.AllIn(chain) && Distinct(chain)
    ensures Distinct(ChainLbas(v, chain))
  {
    if chain != [] {
      var lbas, rest := ChainLbas(v, chain), ChainLbas(v, chain[1..]);
      ChainLbasDistinct(v, chain[1..]);
      forall i, j | 0 <= i < j < |lbas|
        ensures lbas[i] != lbas[j]
      {
        if j >= v.spc {
          assert lbas[j] == rest[j - v.spc];
          if i < v.spc {
            var m := ChainOwner(v, chain[1..], j - v.spc);
            assert Owns(v, chain[0], lbas[i]);
            if lbas[i] == lbas[j] {
              OwnerUnique(v, chain[0], chain[1..][m], lbas[i]);
            }
          }
        }
      }
    }
  }

  // ---- Bytes ------------------------------------------------------------------------------------

  /** The sectors `lbas` of an image, one after the other. */
  ghost function Gather(d: Image, lbas: seq<nat>): (r: seq<Sector>)
    requires forall i | 0 <= i < |lbas| :: lbas[i] < |d|
    ensures |r| == |lbas|
  {
    seq(|lbas|, i requires 0 <= i < |lbas| => d[lbas[i]])
  }

  function Flat(s: seq<Sector>): (r: seq<byte>)
    ensures |r| == 512 * |s|
  {
    if s == [] then [] else s[0] + Flat(s[1..])
  }

  lemma {:induction false} FlatConcat(a: seq<Sector>, b: seq<Sector>)
    ensures Flat(a + b) == Flat(a) + Flat(b)
  {
    if a == [] {
      assert a + b == b;
    } else {
      assert (a + b)[1..] == a[1..] + b;
      FlatConcat(a[1..], b);
    }
  }

  lemma {:induction false} FlatAt(s: seq<Sector>, i: nat)
    requires i < 512 * |s|
    ensures Flat(s)[i] == s[i / 512][i % 512]
  {
    if i >= 512 {
      FlatAt(s[1..], i - 512);
    }
  }

  // ---- Images that agree ------------------------------------------------------------------------

  /** `e` differs from `d` at most in the FAT entries and data of `touched`. */
  ghost predicate Agree(v: Volume, d: Image, e: Image, touched: set<nat>)
    requires v.Holds(d)
  {
    && |e| == |d|
    && (forall c: nat | v.InRange(c) && c !in touched :: Fat(v, e, c) == Fat(v, d, c))
    && (forall c: nat, s: nat | Owns(v, c, s) && c !in touched && s < |d| :: e[s] == d[s])
  }

  /** Every image a log passes through, from `d` to its end, agrees with `d`. */
  ghost predicate AgreeAll(v: Volume, d: Image, w: seq<Event>, touched: set<nat>)
    requires v.Holds(d)
  {
    forall k | 0 <= k <= |w| :: Agree(v, d, Replay(d, w[..k]), touched)
  }

  lemma AgreeTrans(v: Volume, d: Image, mid: Image, e: Image, a: set<nat>, b: set<nat>)
    requires v.Holds(d) && Agree(v, d, mid, a) && Agree(v, mid, e, b)
    ensures Agree(v, d, e, a + b)
  {
    forall c: nat, s: nat | Owns(v, c, s) && c !in a + b && s < |d|
      ensures e[s] == d[s]
    {
      assert e[s] == mid[s];
    }
  }

  /** A second log that changes at most `b`, after a first that changes `a`. */
  lemma AgreeThen(v: Volume, d: Image, w1: seq<Event>, w2: seq<Event>, a: set<nat>, b: set<nat>)
    requires v.Holds(d) && AgreeAll(v, d, w1, a) && AgreeAll(v, Replay(d, w1), w2, b)
    ensures AgreeAll(v, d, w1 + w2, a + b)
  {
    AgreeEnd(v, d, w1, a);
    AgreeMore(v, d, w1, a, a + b);
    forall k | 0 <= k <= |w2|
      ensures Agree(v, d, Replay(Replay(d, w1), w2[..k]), a + b)
    {
      AgreeTrans(v, d, Replay(d, w1), Replay(Replay(d, w1), w2[..k]), a, b);
    }
    AgreeTwo(v, d, w1, w2, a + b);
  }

  lemma AgreeTwo(v: Volume, d: Image, w1: seq<Event>, w2: seq<Event>, touched: set<nat>)
    requires v.Holds(d) && AgreeAll(v, d, w1, touched)
    requires forall k | 0 <= k <= |w2| :: Agree(v, d, Replay(Replay(d, w1), w2[..k]), touched)
    ensures AgreeAll(v, d, w1 + w2, touched)
  {
    forall k | 0 <= k <= |w1 + w2|
      ensures Agree(v, d, Replay(d, (w1 + w2)[..k]), touched)
    {
      PrefixSplit(d, w1, w2, k);
      if k <= |w1| {
        assert Agree(v, d, Replay(d, w1[..k]), touched);
      } else {
        assert Agree(v, d, Replay(Replay(d, w1), w2[..k - |w1|]), touched);
      }
    }
  }

  lemma AgreeEnd(v: Volume, d: Image, w: seq<Event>, touched: set<nat>)
    requires v.Holds(d) && AgreeAll(v, d, w, touched)
    ensures Agree(v, d, Replay(d, w), touched)
  {
    assert w[..|w|] == w;
  }

  lemma AgreeMore(v: Volume, d: Image, w: seq<Event>, touched: set<nat>, more: set<nat>)
    requires v.Holds(d) && AgreeAll(v, d, w, touched) && touched <= more
    ensures AgreeAll(v, d, w, more)
  {
    forall k | 0 <= k <= |w|
      ensures Agree(v, d, Replay(d, w[..k]), more)
    {
      assert Agree(v, d, Replay(d, w[..k]), touched);
    }
  }

  /** Writes to the data of `touched` clusters leave everything else alone. */
  lemma PutsAgree(v: Volume, d: Image, w: seq<Event>, touched: set<nat>)
    requires v.Holds(d)
    requires forall i | 0 <= i < |w| :: w[i].Put? ==> exists c: nat :: c in touched && Owns(v, c, w[i].lba)
    ensures AgreeAll(v, d, w, touched)
  {
    forall k | 0 <= k <= |w|
      ensures Agree(v, d, Replay(d, w[..k]), touched)
    {
      var e := Replay(d, w[..k]);
      forall c: nat | v.InRange(c) && c !in touched
        ensures Fat(v, e, c) == Fat(v, d, c)
      {
        ReplayUntouched(d, w[..k], v.fatStart + c / 128);
      }
      forall c: nat, s: nat | Owns(v, c, s) && c !in touched && s < |d|
        ensures e[s] == d[s]
      {
        forall i | 0 <= i < k && w[i].Put?
          ensures w[i].lba != s
        {
          var c': nat :| c' in touched && Owns(v, c', w[i].lba);
          if w[i].lba == s {
            OwnerUnique(v, c, c', s);
          }
        }
        ReplayUntouched(d, w[..k], s);
      }
    }
  }
}
