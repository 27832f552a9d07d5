/** What is on the disk, byte by byte, as the FAT32 format has it: offsets, letters
    and numbers written out, and examples of names. */
module FatFormat {
  import opened Base
  import opened Numbers
  import opened Blocks
  import opened FatLayout
  import opened FatData
  import opened FatNames
  import opened FatDirectory
  import opened FatRoundTrip
  import opened FatTree
  import opened FatTables
  import opened FatFree
  import opened FatEntry
  import opened FatFind
  import opened FatFolders

  /** A literal as UTF-16 units, and the bytes of a literal. */
  function Units(text: string): seq<nat> {
    seq(|text|, i requires 0 <= i < |text| => text[i] as nat)
  }

  /** Two and four bytes, lowest first, as a number. */
  function Two(s: seq<byte>, at: nat): nat
    requires at + 2 <= |s|
  {
    s[at] as nat + 0x100 * s[at + 1] as nat
  }

  function Four(s: seq<byte>, at: nat): nat
    requires at + 4 <= |s|
  {
    Two(s, at) + 0x1_0000 * Two(s, at + 2)
  }

  predicate Spells(s: seq<byte>, at: nat, text: string)
    requires at + |text| <= |s|
  {
    forall i | 0 <= i < |text| :: s[at + i] == text[i] as int
  }

  // ---- The volume -------------------------------------------------------------------------------

  /** The entry of a cluster is four bytes at four times its number in the FAT, of
      which the highest four bits do not count. */
  lemma EntryBytes(v: Volume, d: Image, c: nat)
    requires v.Holds(d) && v.InRange(c)
    ensures v.fatStart + 4 * c / 512 < |d|
    ensures Fat(v, d, c) == Four(d[v.fatStart + 4 * c / 512], 4 * c % 512) % 0x1000_0000
  {
    hide Raw;
    Fours(c);
    RawIs(d[v.fatStart + c / 128], c % 128);
  }

  lemma Fours(c: nat)
    ensures 4 * c / 512 == c / 128 && 4 * c % 512 == 4 * (c % 128)
  {
    var q, r := c / 128, c % 128;
    assert 4 * c == 512 * q + 4 * r;
  }

  lemma RawIs(s: Sector, slot: nat)
    requires slot < 128
    ensures Raw(s, slot) == Four(s, 4 * slot)
  {
  }

  /** A cluster's sectors: cluster 2 is the first of the data. */
  lemma ClusterSectors(v: Volume, d: Image, c: nat, s: nat)
    requires v.Holds(d) && v.InRange(c)
    ensures Owns(v, c, s) <==> v.dataStart + (c - 2) * v.spc <= s < v.dataStart + (c - 2) * v.spc + v.spc
  {
    LbaFormula(v, c);
  }

  /** The FATs lie one behind the other. */
  lemma CopySectors(v: Volume, copy: nat, index: nat)
    ensures FatLba(v, copy, index) == v.fatStart + copy * v.fatSize + index
  {
    TimesFormula(copy, v.fatSize);
  }

  /** Slot `k` of a directory is its bytes from 32 * `k` on. */
  lemma SlotBytes(v: Volume, d: Image, chain: seq<nat>, k: nat)
    requires v.Holds(d) && v.AllIn(chain) && k < |DirSlots(v, d, chain)|
    ensures 32 * k + 32 <= |Bytes(v, d, chain)|
    ensures DirSlots(v, d, chain)[k] == Bytes(v, d, chain)[32 * k..32 * k + 32]
  {
    hide ChainLbas;
    var sectors := GatherChain(v, d, chain);
    var slot := DirSlots(v, d, chain)[k];
    assert slot == SlotAt(sectors[k / 16], k % 16);
    forall i | 0 <= i < 32
      ensures slot[i] == Flat(sectors)[32 * k + i]
    {
      FlatAt(sectors, 32 * k + i);
      assert (32 * k + i) / 512 == k / 16 && (32 * k + i) % 512 == 32 * (k % 16) + i;
    }
    assert Flat(sectors)[32 * k..32 * k + 32] == slot;
  }

  /** FSInfo: two signatures, then the count at byte 488, all ones when it is not
      known. */
  lemma CountBytes(s: Sector, n: nat)
    ensures SectorCount(s) == Some(n) <==>
              && Spells(s, 0, "RRaA") && Spells(s, 484, "rrAa")
              && n == Four(s, 488) && n != 0xFFFF_FFFF
  {
    FourSpells(s, 0, "RRaA", LEAD);
    FourSpells(s, 484, "rrAa", STRUCTURE);
  }

  lemma FourSpells(s: Sector, at: nat, text: string, n: nat)
    requires at + 4 <= 512 && |text| == 4 && (forall i | 0 <= i < 4 :: text[i] as int < 0x100)
    requires n == text[0] as nat + 0x100 * text[1] as nat + 0x1_0000 * text[2] as nat + 0x100_0000 * text[3] as nat
    ensures Four(s, at) == n <==> Spells(s, at, text)
  {
    var a, b, c, e := s[at] as nat, s[at + 1] as nat, s[at + 2] as nat, s[at + 3] as nat;
    SameFour(a, b, c, e, text[0] as nat, text[1] as nat, text[2] as nat, text[3] as nat);
    assert Spells(s, at, text) <==>
        s[at + 0] == text[0] as int && s[at + 1] == text[1] as int && s[at + 2] == text[2] as int &&
        s[at + 3] == text[3] as int;
  }

  lemma SameFour(a: nat, b: nat, c: nat, d: nat, e: nat, f: nat, g: nat, h: nat)
    requires a < 0x100 && b < 0x100 && c < 0x100 && d < 0x100 && e < 0x100 && f < 0x100 && g < 0x100 && h < 0x100
    ensures a + 0x100 * b + 0x1_0000 * c + 0x100_0000 * d == e + 0x100 * f + 0x1_0000 * g + 0x100_0000 * h
            <==> a == e && b == f && c == g && d == h
  {
  }

  /** A new count changes those four bytes alone. */
  lemma SetCountBytes(s: Sector, n: nat)
    requires n < 0xFFFF_FFFF
    ensures Four(SetCount(s, n), 488) == n
    ensures forall i | 0 <= i < 512 && !(488 <= i < 492) :: SetCount(s, n)[i] == s[i]
  {
    WordLe4(n);
  }

  // ---- Directory slots --------------------------------------------------------------------------

  /** What an entry says of its file. */
  lemma EntrySlotBytes(raw: Slot)
    ensures SlotEntry(raw) == Entry(0x1_0000 * Two(raw, 20) + Two(raw, 26), Four(raw, 28), raw[11] / 0x10 % 2 == 1)
    ensures IsFree(raw) <==> raw[0] == 0x00 || raw[0] == 0xE5
    ensures IsLong(raw) <==> raw[0] != 0x00 && raw[0] != 0xE5 && raw[11] == 0x0F
  {
  }

  /** The bytes of a new entry's short slot. */
  lemma ShortSlotBytes(short: Short, attr: byte, cluster: nat, size: nat, stamp: Stamp)
    requires |short.bytes| == 11 && cluster < 0x1_0000_0000 && size < 0x1_0000_0000
    ensures var raw := ShortSlot(short, attr, cluster, size, stamp);
            && raw[..11] == short.bytes && raw[11] == attr && raw[12] == short.flags && raw[13] == 0
            && Two(raw, 14) == stamp.time % 0x1_0000 && Two(raw, 16) == stamp.date % 0x1_0000
            && Two(raw, 18) == stamp.date % 0x1_0000 && Two(raw, 20) == cluster / 0x1_0000
            && Two(raw, 22) == stamp.time % 0x1_0000 && Two(raw, 24) == stamp.date % 0x1_0000
            && Two(raw, 26) == cluster % 0x1_0000 && Four(raw, 28) == size
  {
    hide Le4;
    TwoBack(stamp.time);
    TwoBack(stamp.date);
    TwoBack(cluster / 0x1_0000);
    TwoBack(cluster % 0x1_0000);
    WordLe4(size);
    var raw := ShortSlot(short, attr, cluster, size, stamp);
    assert raw[14] == Le2(stamp.time)[0] && raw[15] == Le2(stamp.time)[1];
    assert raw[16] == Le2(stamp.date)[0] && raw[17] == Le2(stamp.date)[1];
    assert raw[18] == Le2(stamp.date)[0] && raw[19] == Le2(stamp.date)[1];
    assert raw[20] == Le2(cluster / 0x1_0000)[0] && raw[21] == Le2(cluster / 0x1_0000)[1];
    assert raw[22] == Le2(stamp.time)[0] && raw[23] == Le2(stamp.time)[1];
    assert raw[24] == Le2(stamp.date)[0] && raw[25] == Le2(stamp.date)[1];
    assert raw[26] == Le2(cluster % 0x1_0000)[0] && raw[27] == Le2(cluster % 0x1_0000)[1];
    assert raw[28] == Le4(size)[0] && raw[29] == Le4(size)[1] && raw[30] == Le4(size)[2] && raw[31] == Le4(size)[3];
  }

  lemma TwoBack(n: nat)
    ensures Le2(n)[0] as nat + 0x100 * Le2(n)[1] as nat == n % 0x1_0000
  {
    var q, r := n / 0x100, n % 0x100;
    var h, b := q / 0x100, q % 0x100;
    assert n == 0x1_0000 * h + (0x100 * b + r);
  }

  /** A file replaced: its first cluster, its size and its dates change, and nothing
      else of its slot. */
  lemma RepointBytes(raw: Slot, cluster: nat, size: nat, stamp: Stamp)
    requires cluster < 0x1_0000_0000 && size < 0x1_0000_0000
    ensures var to := Repoint(raw, cluster, size, stamp);
            && to[..18] == raw[..18]
            && Two(to, 18) == stamp.date % 0x1_0000 && Two(to, 20) == cluster / 0x1_0000
            && Two(to, 22) == stamp.time % 0x1_0000 && Two(to, 24) == stamp.date % 0x1_0000
            && Two(to, 26) == cluster % 0x1_0000 && Four(to, 28) == size
  {
    hide Le4;
    TwoBack(stamp.time);
    TwoBack(stamp.date);
    TwoBack(cluster / 0x1_0000);
    TwoBack(cluster % 0x1_0000);
    WordLe4(size);
    var to := Repoint(raw, cluster, size, stamp);
    assert to[18] == Le2(stamp.date)[0] && to[19] == Le2(stamp.date)[1];
    assert to[20] == Le2(cluster / 0x1_0000)[0] && to[21] == Le2(cluster / 0x1_0000)[1];
    assert to[22] == Le2(stamp.time)[0] && to[23] == Le2(stamp.time)[1];
    assert to[24] == Le2(stamp.date)[0] && to[25] == Le2(stamp.date)[1];
    assert to[26] == Le2(cluster % 0x1_0000)[0] && to[27] == Le2(cluster % 0x1_0000)[1];
    assert to[28] == Le4(size)[0] && to[29] == Le4(size)[1] && to[30] == Le4(size)[2] && to[31] == Le4(size)[3];
  }

  /** The places of the thirteen units of a long-name slot. */
  const PLACES: seq<nat> := [1, 3, 5, 7, 9, 14, 16, 18, 20, 22, 24, 28, 30]

  /** A long-name slot: its number, with 0x40 on the last piece of the name, the
      attribute, the checksum, and thirteen units; a zero ends the name, and
      0xFFFF fills the rest. */
  lemma LongSlotBytes(units: Name, piece: nat, checksum: byte)
    requires piece < Pieces(|units|) <= 63 && forall i | 0 <= i < |units| :: units[i] < 0x1_0000
    ensures var raw := LongSlot(units, piece, checksum);
            && raw[0] == (if |units| <= 13 * (piece + 1) then 0x40 + piece + 1 else piece + 1)
            && raw[11] == 0x0F && raw[12] == 0 && raw[13] == checksum && raw[26] == 0 && raw[27] == 0
            && forall i | 0 <= i < 13 ::
                 var n := 13 * piece + i;
                 Two(raw, PLACES[i]) == if n < |units| then units[n] else if n == |units| then 0 else 0xFFFF
  {
    hide UnitAt, Pieces, UnitOf, PLACES;
    LastPiece(|units|, piece);
    forall i | 0 <= i < 13
      ensures |PLACES| == 13 && PLACES[i] <= 30
      ensures var n := 13 * piece + i;
              Two(LongSlot(units, piece, checksum), PLACES[i])
              == if n < |units| then units[n] else if n == |units| then 0 else 0xFFFF
    {
      LongSlotUnit(units, piece, checksum, i);
    }
  }

  lemma LongSlotUnit(units: Name, piece: nat, checksum: byte, i: nat)
    requires piece < Pieces(|units|) <= 63 && (forall i | 0 <= i < |units| :: units[i] < 0x1_0000) && i < 13
    ensures |PLACES| == 13 && PLACES[i] <= 30
    ensures var n := 13 * piece + i;
            Two(LongSlot(units, piece, checksum), PLACES[i])
            == if n < |units| then units[n] else if n == |units| then 0 else 0xFFFF
  {
    hide Pieces, UnitOf;
    PositionOf(i);
    assert PLACES[i] == Position(i);
    var unit := UnitAt(units, piece * 13 + i);
    assert unit == 0x100 * (unit / 0x100) + unit % 0x100;
  }

  lemma LastPiece(n: nat, piece: nat)
    ensures piece < Pieces(n) ==> (piece + 1 == Pieces(n) <==> n <= 13 * (piece + 1))
  {
  }

  /** The slots of a name, in the order they are written: the last piece first, all
      with the checksum of the short name. */
  lemma {:induction false} LongSlotsBytes(name: Name, n: nat, checksum: byte, k: nat)
    requires n <= Pieces(|name|) <= 63 && (forall i | 0 <= i < |name| :: name[i] < 0x1_0000) && k < n
    ensures LongSlots(name, n, checksum)[k] == LongSlot(name, n - 1 - k, checksum)
  {
    if k > 0 {
      LongSlotsBytes(name, n - 1, checksum, k - 1);
    }
  }

  /** "." and "..", the first two slots of a new directory, and zeros behind. */
  lemma BlockBytes(v: Volume, cluster: nat, above: nat, stamp: Stamp)
    requires v.spc > 0 && cluster < 0x1_0000_0000 && above < 0x1_0000_0000
    ensures var b := Block(v, cluster, above, stamp);
            && |b| == 512 * v.spc && Spells(b, 0, ".          ") && Spells(b, 32, "..         ")
            && b[11] == 0x10 && b[43] == 0x10 && Two(b, 26) + 0x1_0000 * Two(b, 20) == cluster
            && Two(b, 58) + 0x1_0000 * Two(b, 52) == above && Four(b, 28) == 0 && Four(b, 60) == 0
            && forall i | 64 <= i < |b| :: b[i] == 0
  {
    hide ShortSlot;
    var b := Block(v, cluster, above, stamp);
    var one, two := DotSlot(1, cluster, stamp), DotSlot(2, above, stamp);
    ShortSlotBytes(Short(Dots11(1), 0, false), 0x10, cluster, 0, stamp);
    ShortSlotBytes(Short(Dots11(2), 0, false), 0x10, above, 0, stamp);
    forall i | 0 <= i < 32
      ensures b[i] == one[i] && b[32 + i] == two[i]
    {
    }
    assert b[20] == one[20] && b[21] == one[21] && b[26] == one[26] && b[27] == one[27];
    assert b[52] == b[32 + 20] && b[53] == b[32 + 21] && b[58] == b[32 + 26] && b[59] == b[32 + 27]
        && b[43] == b[32 + 11];
    assert b[60] == b[32 + 28] && b[61] == b[32 + 29] && b[62] == b[32 + 30] && b[63] == b[32 + 31];
    forall i | 0 <= i < 11
      ensures b[i] == ".          "[i] as int && b[32 + i] == "..         "[i] as int
    {
      assert one[i] == one[..11][i] && two[i] == two[..11][i];
    }
  }

  // ---- Names ------------------------------------------------------------------------------------

  /** The characters of an 8.3 name. */
  lemma ValidAre(c: nat)
    ensures Valid(c) <==>
              || 'A' as nat <= c <= 'Z' as nat || '0' as nat <= c <= '9' as nat
              || c in Units("$%'-_@~`!(){}^#&")
  {
    SpecialAre(c);
  }

  lemma SpecialAre(c: nat)
    ensures Special(c) <==> c in Units("$%'-_@~`!(){}^#&")
  {
    var u := Units("$%'-_@~`!(){}^#&");
    assert u == [0x24, 0x25, 0x27, 0x2D, 0x5F, 0x40, 0x7E, 0x60, 0x21, 0x28, 0x29, 0x7B, 0x7D, 0x5E, 0x23, 0x26];
  }

  /** The characters no name may have. */
  lemma ForbiddenAre(c: nat)
    ensures Forbidden(c) <==> c < 0x20 || c in Units("\"*/:<>?\\|")
  {
    assert Units("\"*/:<>?\\|") == [0x22, 0x2A, 0x2F, 0x3A, 0x3C, 0x3E, 0x3F, 0x5C, 0x7C];
  }

  /** A path of these names, each behind a slash. */
  function Slashed(names: seq<Name>): seq<nat> {
    if names == [] then [] else Slashed(names[..|names| - 1]) + Units("/") + names[|names| - 1]
  }

  /** Whatever the names, as long as they are some and have no slash, they are the
      parts of their path; and slashes behind it change nothing. */
  lemma {:induction false} PartsBack(names: seq<Name>)
    requires forall n | n in names :: n != [] && '/' as nat !in n
    ensures Parts(Slashed(names)) == names && Parts(Slashed(names) + Units("/")) == names
  {
    var slash := Units("/");
    assert slash == [SLASH];
    var text := Slashed(names);
    assert (text + slash)[..|text|] == text;
    if names != [] {
      var front, last := names[..|names| - 1], names[|names| - 1];
      assert last in names && forall n | n in front :: n in names;
      PartsBack(front);
      OnePart(Slashed(front), front, last);
      assert text == Slashed(front) + slash + last && names == front + [last];
    }
  }

  lemma OnePart(before: seq<nat>, front: seq<Name>, last: Name)
    requires Parts(before) == front && last != [] && '/' as nat !in last
    ensures CutAt(before + Units("/") + last) == Cutting(front, last)
  {
    var slash := Units("/");
    assert slash == [SLASH];
    assert (before + slash)[..|before|] == before;
    CutPlain(before + slash, last);
  }

  /** Characters as UTF-16 units: one, or a pair from 0x10000 on. */
  function Encoded(chars: seq<nat>): seq<nat> {
    if chars == [] then []
    else
      var c := chars[|chars| - 1];
      Encoded(chars[..|chars| - 1])
      + if c < 0x1_0000 then [c] else [High(c), Low(c)]
  }

  function High(c: nat): nat
    requires c >= 0x1_0000
  {
    0xD800 + (c - 0x1_0000) / 0x400
  }

  function Low(c: nat): nat
    requires c >= 0x1_0000
  {
    0xDC00 + (c - 0x1_0000) % 0x400
  }

  /** The length of a name counts characters. */
  lemma {:induction false} CharsAre(chars: seq<nat>)
    requires forall c | c in chars :: c < 0xD800 || 0xE000 <= c < 0x11_0000
    ensures Chars(Encoded(chars)) == |chars|
  {
    hide Chars, High, Low;
    NoChars();
    if chars != [] {
      var n := |chars| - 1;
      var front, c := chars[..n], chars[n];
      assert c in chars && forall x | x in front :: x in chars;
      CharsAre(front);
      var u := Encoded(front);
      if c < 0x1_0000 {
        OneMore(u, c);
      } else {
        assert u + [High(c), Low(c)] == u + [High(c)] + [Low(c)];
        PairIs(c);
        OneMore(u, High(c));
        OneMore(u + [High(c)], Low(c));
      }
    }
  }

  lemma NoChars()
    ensures Chars([]) == 0
  {
  }

  lemma OneMore(u: seq<nat>, c: nat)
    ensures Chars(u + [c]) == Chars(u) + if 0xDC00 <= c < 0xE000 then 0 else 1
  {
    assert (u + [c])[..|u|] == u;
  }

  lemma PairIs(c: nat)
    requires 0x1_0000 <= c < 0x11_0000
    ensures 0xD800 <= High(c) < 0xDC00 <= Low(c) < 0xE000
  {
  }

  /** The number a string of decimal digits is. */
  function Decimal(digits: seq<nat>): int {
    if digits == [] then 0 else 10 * Decimal(digits[..|digits| - 1]) + digits[|digits| - 1] - '0' as int
  }

  /** The number of an alias, written without a zero in front. */
  lemma DigitsAre(n: nat)
    requires 1 <= n <= 999_999
    ensures Decimal(Digits(n)) == n && Digits(n)[0] != '0' as nat
  {
    Tenfold();
    PlacesAre(n, |Digits(n)|);
  }

  lemma Tenfold()
    ensures Tens(0) == 1 && Tens(1) == 10 && Tens(2) == 100 && Tens(3) == 1000 && Tens(4) == 10_000
    ensures Tens(5) == 100_000 && Tens(6) == 1_000_000
  {
    assert Tens(2) == 10 * Tens(1);
    assert Tens(3) == 10 * Tens(2);
    assert Tens(4) == 10 * Tens(3);
    assert Tens(5) == 10 * Tens(4);
    assert Tens(6) == 10 * Tens(5);
  }

  function Tens(places: nat): nat {
    if places == 0 then 1 else 10 * Tens(places - 1)
  }

  lemma {:induction false} PlacesAre(n: nat, places: nat)
    requires places > 0 && n < Tens(places)
    ensures Decimal(DigitsUpTo(n, places)) == n
    ensures n >= Tens(places - 1) && n > 0 ==> DigitsUpTo(n, places)[0] != '0' as nat
  {
    if places > 1 {
      PlacesAre(n / 10, places - 1);
      var front := DigitsUpTo(n / 10, places - 1);
      assert (front + [0x30 + n % 10])[..places - 1] == front;
    } else {
      assert [0x30 + n % 10][..0] == [];
    }
  }

  /** A part of an 8.3 name, with spaces behind. */
  function Spaced(part: seq<nat>, n: nat): seq<nat>
    requires |part| <= n
  {
    part + seq(n - |part|, _ => ' ' as nat)
  }

  /** An alias: some letters of the base, or of "FICHIE" when it has none, a tilde,
      the number, and up to three letters of the extension, with spaces behind. */
  lemma AliasBytes(name: Name, number: nat)
    requires 1 <= number <= 999_999
    ensures var (base, extension) := Split(name);
            var stem := if Clean(base, 6) == [] then Units("FICHIE") else Clean(base, 6);
            var digits := Digits(number);
            var keep := if 7 - |digits| < |stem| then 7 - |digits| else |stem|;
            Alias(name, number) == Spaced(stem[..keep] + Units("~") + digits, 8) + Spaced(Clean(extension, 3), 3)
  {
    hide Clean, Digits, Split, Field, Valid, Alias, Spaced;
    var (base, extension) := Split(name);
    FichieIs();
    var stem := if Clean(base, 6) == [] then FICHIE else Clean(base, 6);
    var digits := Digits(number);
    var keep := if 7 - |digits| < |stem| then 7 - |digits| else |stem|;
    AliasFields(name, number);
    assert Units("~") == [0x7E];
    FieldSpaced(stem[..keep] + [0x7E] + digits, 8);
    FieldSpaced(Clean(extension, 3), 3);
  }

  lemma AliasFields(name: Name, number: nat)
    requires 1 <= number <= 999_999
    ensures var (base, extension) := Split(name);
            var stem := if Clean(base, 6) == [] then FICHIE else Clean(base, 6);
            var digits := Digits(number);
            var keep := if 7 - |digits| < |stem| then 7 - |digits| else |stem|;
            Alias(name, number) == Field(stem[..keep] + [0x7E] + digits, 8) + Field(Clean(extension, 3), 3)
  {
    hide Clean, Digits, Split, Field;
    var (base, extension) := Split(name);
    var stem := if Clean(base, 6) == [] then FICHIE else Clean(base, 6);
    var digits := Digits(number);
    var keep := if 7 - |digits| < |stem| then 7 - |digits| else |stem|;
    assert stem[..keep] + ([0x7E] + digits) == stem[..keep] + [0x7E] + digits;
  }

  lemma FichieIs()
    ensures FICHIE == Units("FICHIE") && forall i | 0 <= i < 6 :: Valid(FICHIE[i])
  {
  }

  lemma FieldSpaced(part: seq<nat>, n: nat)
    requires |part| <= n && forall i | 0 <= i < |part| :: Valid(part[i]) || IsDigit(part[i]) || part[i] == 0x7E
    ensures Field(part, n) == Spaced(part, n)
  {
  }

  lemma {:induction false} TrimSpaces(part: seq<nat>, n: nat)
    requires |part| <= n && (part == [] || !Blank(part[|part| - 1]))
    ensures TrimEnd(Spaced(part, n)) == part
    decreases n
  {
    if |part| == n {
      assert Spaced(part, n) == part;
    } else {
      var s := Spaced(part, n);
      assert s[|s| - 1] == 0x20 && s[..|s| - 1] == Spaced(part, n - 1);
      TrimSpaces(part, n - 1);
    }
  }

  /** What a short slot alone shows: its base in lower case with 0x08 among the flags,
      its extension with 0x10, spaces at the end of either dropped, and 0xE5 for a
      first byte of 0x05. */
  lemma ShownBytes(raw: Slot, base: seq<nat>, extension: seq<nat>)
    requires 0 < |base| <= 8 && !Blank(base[|base| - 1])
    requires |extension| <= 3 && (extension == [] || !Blank(extension[|extension| - 1]))
    requires raw[..8] == Spaced(base, 8) && raw[8..11] == Spaced(extension, 3)
    ensures var front := if raw[12] % 0x10 >= 0x08 then Map(Lower, base) else base;
            var first := if raw[0] == 0x05 then [0xE5] + front[1..] else front;
            var back := if raw[12] % 0x20 >= 0x10 then Map(Lower, extension) else extension;
            ShortName(raw) == if back == [] then first else first + Units(".") + back
  {
    hide Spaced, TrimEnd, Blank, Units, Map;
    TrimSpaces(base, 8);
    TrimSpaces(extension, 3);
    FlagsAre(raw[12]);
    Dot();
  }

  lemma FlagsAre(n: nat)
    ensures n / 8 % 2 == 1 <==> n % 0x10 >= 0x08
    ensures n / 16 % 2 == 1 <==> n % 0x20 >= 0x10
  {
  }

  lemma Dot()
    ensures Units(".") == [DOT]
  {
  }

  /** The alias taken is the first whose number is not in use; there is none when
      all 999,999 are. */
  lemma {:induction false} FirstAlias(name: Name, taken: set<seq<byte>>, number: nat)
    requires 1 <= number
    ensures var r := FreeAlias(name, taken, number);
            && (r == None ==> forall m | number <= m <= 999_999 :: Alias(name, m) in taken)
            && (r.Some? ==> exists n :: number <= n <= 999_999 && r.value == Alias(name, n) && r.value !in taken
                                  && forall m | number <= m < n :: Alias(name, m) in taken)
    decreases 1_000_000 - number
  {
    hide Alias;
    if number <= 999_999 && Alias(name, number) in taken {
      FirstAlias(name, taken, number + 1);
    }
  }

  /** The checksum starts from zero; for each byte its eight bits turn to the right by
      one, the lowest becoming the highest, and the byte is added without carry. */
  lemma ChecksumTurns(short: seq<byte>, c: byte)
    ensures Checksum([]) == 0
    ensures var sum, turned := Checksum(short), (Checksum(short + [c]) - c) % 0x100;
            && (forall i: nat | i < 7 :: BitOf(turned, i) == BitOf(sum, i + 1))
            && BitOf(turned, 7) == BitOf(sum, 0)
  {
    assert (short + [c])[..|short|] == short;
    var turned := Checksum(short) / 2 + 128 * (Checksum(short) % 2);
    Turned(Checksum(short));
    Around(turned, c);
  }

  lemma Around(turned: nat, c: byte)
    requires turned < 0x100
    ensures ((turned + c) % 0x100 - c) % 0x100 == turned
  {
  }

  lemma Turned(sum: byte)
    ensures var turned: nat := sum / 2 + 128 * (sum % 2);
            turned < 0x100 && BitOf(turned, 7) == BitOf(sum, 0)
            && forall i: nat | i < 7 :: BitOf(turned, i) == BitOf(sum, i + 1)
  {
    var turned: nat := sum / 2 + 128 * (sum % 2);
    SeventhBit(sum / 2, sum % 2);
    forall i: nat | i < 7
      ensures BitOf(turned, i) == BitOf(sum, i + 1)
    {
      LowerBit(sum / 2, sum % 2, i);
    }
  }

  lemma LowerBit(low: nat, top: nat, i: nat)
    requires i < 7
    ensures BitOf(low + 128 * top, i) == BitOf(low, i)
  {
    hide BitOf;
    assert Pow2(7) == 128;
    ShiftLow(low, top, 7, i);
  }

  lemma SeventhBit(low: nat, top: nat)
    requires low < 128 && top < 2
    ensures BitOf(low + 128 * top, 7) == top
  {
    var x := low + 128 * top;
    hide Shift;
    ShiftSum(x, 4, 3);
    Shift4(x);
    Shift3(x / 16);
  }

  lemma Shift3(x: nat)
    ensures Shift(x, 3) == x / 8
  {
    assert Shift(x, 3) == Shift(x / 2, 2) == Shift(x / 4, 1) == Shift(x / 8, 0);
  }
}
