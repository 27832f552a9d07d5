/** The slots of a new entry read back: the same name, cluster, size and kind. */
module FatRoundTrip {
  import opened Base
  import opened FatLayout
  import opened FatData
  import opened FatNames
  import opened FatDirectory

  ghost predicate Units(name: Name) {
    forall i | 0 <= i < |name| :: 0 < name[i] < 0x1_0000
  }

  // ---- Long-name slots --------------------------------------------------------------------------

  /** Piece `p` of a name as the reader takes it. */
  ghost function PartOf(name: Name, p: nat): Part {
    Part(p + 1, seq<nat>(LONG_CHARS, i requires 0 <= i < LONG_CHARS => UnitAt(name, p * LONG_CHARS + i)))
  }

  lemma PositionOf(i: nat)
    requires i < LONG_CHARS
    ensures var at := Position(i);
            at != 26 && at != 27 && at + 1 != 11 && at + 1 != 26 && UnitOf(at) == i && UnitOf(at + 1) == i
  {
  }

  lemma LongSlotRead(name: Name, p: nat, checksum: byte)
    requires Units(name) && p < Pieces(|name|) <= 31
    ensures var raw := LongSlot(name, p, checksum);
            IsLong(raw) && Part(raw[0] % 32, SlotUnits(raw)) == PartOf(name, p)
  {
    hide UnitOf, Position, UnitAt;
    var raw := LongSlot(name, p, checksum);
    forall i | 0 <= i < LONG_CHARS
      ensures SlotUnits(raw)[i] == UnitAt(name, p * LONG_CHARS + i)
    {
      var at, unit := Position(i), UnitAt(name, p * LONG_CHARS + i);
      PositionOf(i);
      assert raw[at] == unit % 256 && raw[at + 1] == unit / 256;
    }
  }

  /** The first `k` of `n` pieces in the order they are stored, last one first. */
  ghost function Down(name: Name, n: nat, k: nat): seq<Part>
    requires k <= n
  {
    seq(k, j requires 0 <= j < k => PartOf(name, n - 1 - j))
  }

  ghost function Up(name: Name, from: nat, n: nat): seq<Part>
    requires from <= n
  {
    seq(n - from, j requires 0 <= j < n - from => PartOf(name, from + j))
  }

  lemma {:induction false} InsertFirst(parts: seq<Part>, part: Part)
    requires forall i | 0 <= i < |parts| :: parts[i].order > part.order
    ensures Insert(parts, part) == [part] + parts
  {
    if parts != [] {
      var n := |parts| - 1;
      InsertFirst(parts[..n], part);
      assert parts == parts[..n] + [parts[n]];
    }
  }

  /** Sorting puts the pieces, stored last first, back in order. */
  lemma {:induction false} SortedDown(name: Name, n: nat, k: nat)
    requires k <= n
    ensures Sorted(Down(name, n, k)) == Up(name, n - k, n)
  {
    hide PartOf, Insert;
    if k > 0 {
      SortedDown(name, n, k - 1);
      var last := PartOf(name, n - k);
      assert Down(name, n, k)[..k - 1] == Down(name, n, k - 1) && Down(name, n, k)[k - 1] == last;
      OrdersUp(name, n - k + 1, n, n - k);
      InsertFirst(Up(name, n - k + 1, n), last);
      assert [last] + Up(name, n - k + 1, n) == Up(name, n - k, n);
    }
  }

  lemma OrdersUp(name: Name, from: nat, n: nat, p: nat)
    requires p < from <= n
    ensures forall i | 0 <= i < |Up(name, from, n)| :: Up(name, from, n)[i].order > PartOf(name, p).order
  {
    forall i | 0 <= i < |Up(name, from, n)|
      ensures Up(name, from, n)[i].order > PartOf(name, p).order
    {
      assert Up(name, from, n)[i] == PartOf(name, from + i);
    }
  }

  /** The units of pieces 0 to `n`: the name, a zero, then fillers. */
  lemma {:induction false} UnitsUp(name: Name, n: nat)
    ensures AllUnits(Up(name, 0, n)) == seq(n * LONG_CHARS, q requires 0 <= q < n * LONG_CHARS => UnitAt(name, q))
  {
    if n > 0 {
      UnitsUp(name, n - 1);
      var all := Up(name, 0, n);
      assert all[..n - 1] == Up(name, 0, n - 1) && all[n - 1] == PartOf(name, n - 1);
    }
  }

  lemma {:induction false} UntilZeroIs(s: seq<nat>, m: nat)
    requires m <= |s| && (forall i | 0 <= i < m :: s[i] != 0) && (m < |s| ==> s[m] == 0)
    ensures UntilZero(s) == s[..m]
  {
    if m > 0 {
      UntilZeroIs(s[1..], m - 1);
      assert s[..m] == [s[0]] + s[1..][..m - 1];
    }
  }

  lemma LongNameRead(name: Name)
    requires Units(name)
    ensures LongName(Down(name, Pieces(|name|), Pieces(|name|))) == name
  {
    var n := Pieces(|name|);
    SortedDown(name, n, n);
    UnitsUp(name, n);
    var s := AllUnits(Up(name, 0, n));
    assert forall i | 0 <= i < |name| :: s[i] == UnitAt(name, i) == name[i];
    UntilZeroIs(s, |name|);
  }

  // ---- The short slot ---------------------------------------------------------------------------

  lemma ShortSlotRead(short: Short, attr: byte, cluster: nat, size: nat, stamp: Stamp)
    requires |short.bytes| == 11 && cluster < 0x1_0000_0000 && size < 0x1_0000_0000
    ensures var raw := ShortSlot(short, attr, cluster, size, stamp);
            && raw[..11] == short.bytes && raw[11] == attr && raw[12] == short.flags
            && SlotEntry(raw) == Entry(cluster, size, attr / 16 % 2 == 1)
  {
    var raw := ShortSlot(short, attr, cluster, size, stamp);
    ClusterBytes(cluster);
    WordLe4(size);
    var high, low := Le2(cluster / 0x1_0000), Le2(cluster % 0x1_0000);
    assert raw[20] == high[0] && raw[21] == high[1] && raw[26] == low[0] && raw[27] == low[1];
    assert raw[28] == Le4(size)[0] && raw[29] == Le4(size)[1] && raw[30] == Le4(size)[2] && raw[31] == Le4(size)[3];
  }

  lemma ClusterBytes(c: nat)
    requires c < 0x1_0000_0000
    ensures var high, low := Le2(c / 0x1_0000), Le2(c % 0x1_0000); Word(low[0], low[1], high[0], high[1]) == c
  {
    var h, l := c / 0x1_0000, c % 0x1_0000;
    assert h < 0x1_0000 && l < 0x1_0000 && c == 0x1_0000 * h + l;
    assert h == h % 256 + 256 * (h / 256 % 256);
    assert l == l % 256 + 256 * (l / 256 % 256);
  }

  lemma ValidIs(c: nat)
    requires Valid(c)
    ensures 0x20 < c < 0x7F && c != DOT && !Blank(c)
  {
  }

  lemma FieldIs(part: seq<nat>, n: nat)
    requires |part| <= n && forall i | 0 <= i < |part| :: Valid(Upper(part[i]))
    ensures forall i | 0 <= i < n :: Field(part, n)[i] == if i < |part| then Upper(part[i]) else SPACE
    ensures part != [] ==> !Blank(Upper(part[|part| - 1]))
  {
    forall i | 0 <= i < |part|
      ensures Upper(part[i]) < 256 && !Blank(Upper(part[i]))
    {
      ValidIs(Upper(part[i]));
    }
  }

  lemma {:induction false} TrimSpaces(s: seq<nat>, m: nat)
    requires m <= |s| && (m > 0 ==> !Blank(s[m - 1])) && forall i | m <= i < |s| :: s[i] == SPACE
    ensures TrimEnd(s) == s[..m]
  {
    if m < |s| {
      TrimSpaces(s[..|s| - 1], m);
      assert s[..|s| - 1][..m] == s[..m];
    } else {
      assert s[..m] == s;
    }
  }

  lemma TrimField(part: seq<nat>, n: nat)
    requires |part| <= n && forall i | 0 <= i < |part| :: Valid(Upper(part[i]))
    ensures TrimEnd(Field(part, n)) == Map(Upper, part)
  {
    hide Valid, Blank, Upper, Field;
    FieldIs(part, n);
    TrimSpaces(Field(part, n), |part|);
    assert Field(part, n)[..|part|] == Map(Upper, part);
  }

  /** A part kept in one case comes back through the case flag. */
  lemma ShownField(part: seq<nat>, n: nat)
    requires |part| <= n && OneCase(part) && forall i | 0 <= i < |part| :: Valid(Upper(part[i]))
    ensures Shown(Field(part, n), HasLower(part)) == part
  {
    TrimField(part, n);
    forall i | 0 <= i < |part|
      ensures (if HasLower(part) then Lower(Upper(part[i])) else Upper(part[i])) == part[i]
    {
      assert IsLower(part[i]) ==> HasLower(part);
      assert IsUpper(part[i]) ==> HasUpper(part);
    }
    if HasLower(part) {
      assert Map(Lower, Map(Upper, part)) == part;
    } else {
      assert Map(Upper, part) == part;
    }
  }

  ghost predicate EndsInDot(name: Name) {
    name != [] && name[|name| - 1] == DOT
  }

  /** A plain name is read back without its last dot, if it ends in one: the
      dot has nowhere to go in 8.3 form. */
  lemma PlainRead(name: Name, raw: Slot)
    requires Plain(name)
    requires raw[..11] == Field(Split(name).0, 8) + Field(Split(name).1, 3)
    requires raw[12] == (if HasLower(Split(name).0) then 8 else 0) + (if HasLower(Split(name).1) then 16 else 0)
    ensures ShortName(raw) == if EndsInDot(name) then name[..|name| - 1] else name
  {
    hide Field, Shown, TrimEnd, HasLower, HasUpper, Split, Upper, Valid;
    var (base, extension) := Split(name);
    FieldIs(base, 8);
    ValidIs(Upper(base[0]));
    assert raw[..8] == raw[..11][..8] == Field(base, 8);
    assert raw[8..11] == raw[..11][8..] == Field(extension, 3);
    assert raw[0] == raw[..8][0] == Upper(base[0]);
    ShownField(base, 8);
    ShownField(extension, 3);
    DotAtEnd(name);
  }

  /** Only a name cut at its last unit ends in a dot. */
  lemma DotAtEnd(name: Name)
    requires Plain(name)
    ensures var (base, extension) := Split(name);
            if extension != [] then !EndsInDot(name) && name == base + [DOT] + extension
            else if EndsInDot(name) then name[..|name| - 1] == base else name == base
  {
    var (base, extension) := Split(name);
    if extension != [] {
      assert name[|name| - 1] == extension[|extension| - 1];
      assert Valid(Upper(extension[|extension| - 1]));
    } else if name == base {
      assert Valid(Upper(base[|base| - 1]));
    } else {
      assert name[..|name| - 1] == base;
    }
  }

  // ---- A new entry in its directory -------------------------------------------------------------

  lemma {:induction false} LongSlotsAt(name: Name, n: nat, checksum: byte, j: nat)
    requires Units(name) && j < n <= Pieces(|name|) <= 63
    ensures LongSlots(name, n, checksum)[j] == LongSlot(name, n - 1 - j, checksum)
  {
    if j > 0 {
      LongSlotsAt(name, n - 1, checksum, j - 1);
    }
  }

  lemma DownSnoc(name: Name, n: nat, k: nat)
    requires k < n
    ensures Down(name, n, k + 1) == Down(name, n, k) + [PartOf(name, n - 1 - k)]
  {
  }

  /** The reader part-way through the long-name slots of a new entry. */
  lemma {:induction false} LongScan(slots: seq<Slot>, start: nat, name: Name, checksum: byte, k: nat)
    requires Units(name) && Pieces(|name|) <= 31 && k <= Pieces(|name|) && start + k <= |slots|
    requires forall q | start <= q < start + k :: slots[q] == LongSlot(name, Pieces(|name|) - 1 - (q - start), checksum)
    requires ScanTo(slots, start).long == [] && !ScanTo(slots, start).done
    ensures ScanTo(slots, start + k) ==
            Scan(ScanTo(slots, start).items, Down(name, Pieces(|name|), k),
                 if k == 0 then ScanTo(slots, start).longStart else start, false)
  {
    hide LongSlot, SlotUnits, ReadSlot, PartOf, Down, Pieces;
    var n := Pieces(|name|);
    if k == 0 {
      assert Down(name, n, 0) == [] by {
        DownNone(name, n);
      }
    } else {
      LongScan(slots, start, name, checksum, k - 1);
      DownSnoc(name, n, k - 1);
      DownNone(name, n);
      assert slots[start + k - 1] == LongSlot(name, n - k, checksum);
      ReadLong(ScanTo(slots, start + k - 1), name, n - k, checksum, start + k - 1);
    }
  }

  lemma DownNone(name: Name, n: nat)
    ensures Down(name, n, 0) == []
    ensures forall k | 0 < k <= n :: Down(name, n, k) != []
  {
  }

  lemma ReadLong(st: Scan, name: Name, p: nat, checksum: byte, k: nat)
    requires Units(name) && p < Pieces(|name|) <= 31 && !st.done
    ensures ReadSlot(st, LongSlot(name, p, checksum), k) ==
            st.(longStart := if st.long == [] then k else st.longStart, long := st.long + [PartOf(name, p)])
  {
    hide LongSlot, SlotUnits, PartOf, ShortName, SlotEntry, LongName;
    LongSlotRead(name, p, checksum);
  }

  /** The name an entry made for `name` is read back under. */
  ghost function ReadBack(name: Name): Name {
    if Plain(name) && EndsInDot(name) then name[..|name| - 1] else name
  }

  /** A name `parent_and_name` lets through, in at most 31 long-name slots. */
  ghost predicate Permitted(name: Name) {
    name != [] && !IsDotName(name) && Units(name) && Pieces(|name|) <= 31
  }

  lemma ReadBackIs(name: Name, raw: Slot, short: Short, taken: set<seq<byte>>)
    requires Permitted(name) && ShortFor(name, taken) == Some(short)
    requires raw[..11] == short.bytes && raw[12] == short.flags
    ensures !short.long ==> ShortName(raw) == ReadBack(name)
    ensures !IsDotName(ReadBack(name))
  {
    hide ShortName, FreeAlias, Field, HasLower;
    if Plain(name) {
      PlainRead(name, raw);
      var base := Split(name).0;
      ValidIs(Upper(base[0]));
      assert ReadBack(name)[0] == base[0] != DOT;
    }
  }

  /** What the reader takes from the slots of a new entry. */
  ghost function NewItem(name: Name, short: Short, attr: byte, cluster: nat, size: nat, start: nat, n: nat): Item
    requires n > 0
  {
    Item(ReadBack(name), short.bytes, Entry(cluster, size, attr / 16 % 2 == 1), start, start + n - 1)
  }

  ghost predicate NewAttr(attr: byte) {
    attr == ATTR_DIRECTORY || attr == ATTR_ARCHIVE
  }

  lemma ShortScan(st: Scan, raw: Slot, k: nat, name: Name, short: Short, taken: set<seq<byte>>, attr: byte,
      cluster: nat, size: nat, stamp: Stamp, start: nat)
    requires Permitted(name) && ShortFor(name, taken) == Some(short) && NewAttr(attr)
    requires cluster < 0x1_0000_0000 && size < 0x1_0000_0000
    requires raw == ShortSlot(short, attr, cluster, size, stamp) && !st.done
    requires if short.long then st.long == Down(name, Pieces(|name|), Pieces(|name|)) && st.longStart == start
             else st.long == [] && k == start
    requires start <= k
    ensures ReadSlot(st, raw, k) ==
            st.(items := st.items + [NewItem(name, short, attr, cluster, size, start, k - start + 1)], long := [])
  {
    hide ShortSlot, SlotEntry, ShortName, LongName, Down, ShortFor, ReadBack, IsDotName;
    ShortForIs(name, taken);
    ShortSlotRead(short, attr, cluster, size, stamp);
    assert raw[0] == raw[..11][0];
    ReadBackIs(name, raw, short, taken);
    if short.long {
      LongNameRead(name);
      DownSome(name);
      ReadBackLong(name);
    }
  }

  lemma ShortForIs(name: Name, taken: set<seq<byte>>)
    requires ShortFor(name, taken).Some?
    ensures var short := ShortFor(name, taken).value;
            && |short.bytes| == 11 && 0x20 < short.bytes[0] < 0x7F && (short.long <==> !Plain(name))
            && short.bytes !in taken
  {
    ValidIs(ShortFor(name, taken).value.bytes[0]);
  }

  lemma DownSome(name: Name)
    requires name != []
    ensures Down(name, Pieces(|name|), Pieces(|name|)) != []
  {
  }

  lemma ReadBackLong(name: Name)
    requires !Plain(name)
    ensures ReadBack(name) == name
  {
  }

  /** The slots of a new entry, written into a free run, are read back as that
      entry and no other: same name, cluster, size and kind, under an 8.3 alias
      no entry had, and every other item is where it was, as it was. */
  lemma EntryAdded(slots: seq<Slot>, start: nat, run: nat, name: Name, short: Short, taken: set<seq<byte>>, attr: byte,
      cluster: nat, size: nat, stamp: Stamp)
    requires Tidy(slots) && FreeRun(slots, start, run) && Permitted(name) && NewAttr(attr)
    requires ShortFor(name, taken) == Some(short)
    requires cluster < 0x1_0000_0000 && size < 0x1_0000_0000
    requires |EntrySlots(name, short, attr, cluster, size, stamp)| <= run
    ensures var news := EntrySlots(name, short, attr, cluster, size, stamp);
            Inserted(Items(slots), Items(Replace(slots, start, news)), |ScanTo(slots, start).items|,
                     [NewItem(name, short, attr, cluster, size, start, |news|)])
    ensures short.bytes !in taken
  {
    hide ShortSlot, ShortFor, LongSlots, ReadSlot, ScanTo, NewItem, Inserted, Tidy;
    ShortForIs(name, taken);
    var news := EntrySlots(name, short, attr, cluster, size, stamp);
    var filled := Replace(slots, start, news);
    var k := |news| - 1;
    NewsScan(slots, start, run, name, short, taken, attr, cluster, size, stamp, k);
    FilledPrefix(slots, start, news, k);
    var item := NewItem(name, short, attr, cluster, size, start, |news|);
    ScanStep(filled, start + k);
    assert filled[start + k] == news[k];
    ShortScan(ScanTo(filled, start + k), news[k], start + k, name, short, taken, attr, cluster, size, stamp, start);
    FillRun(slots, start, run, news, [item]);
  }

  lemma ScanStep(slots: seq<Slot>, n: nat)
    requires n < |slots|
    ensures ScanTo(slots, n + 1) == ReadSlot(ScanTo(slots, n), slots[n], n)
  {
  }

  /** Scanning as far as the first `k` new slots only depends on them. */
  lemma FilledPrefix(slots: seq<Slot>, start: nat, news: seq<Slot>, k: nat)
    requires k <= |news| && start + |news| <= |slots|
    ensures ScanTo(Replace(slots, start, news), start + k) == ScanTo(Replace(slots, start, news[..k]), start + k)
  {
    hide ScanTo;
    var a, b := Replace(slots, start, news), Replace(slots, start, news[..k]);
    assert a[..start + k] == b[..start + k];
    ScanSame(a, b, start + k);
  }

  /** The reader after the first `k` slots of a new entry, its short slot not
      among them. */
  lemma NewsScan(slots: seq<Slot>, start: nat, run: nat, name: Name, short: Short, taken: set<seq<byte>>, attr: byte,
      cluster: nat, size: nat, stamp: Stamp, k: nat)
    requires Tidy(slots) && FreeRun(slots, start, run) && 0 < run && Permitted(name) && NewAttr(attr)
    requires ShortFor(name, taken) == Some(short)
    requires cluster < 0x1_0000_0000 && size < 0x1_0000_0000
    requires k <= run && k < |EntrySlots(name, short, attr, cluster, size, stamp)|
    ensures var part := Replace(slots, start, EntrySlots(name, short, attr, cluster, size, stamp)[..k]);
            var st := ScanTo(part, start + k);
            && !st.done && st.items == ScanTo(slots, start).items
            && (if short.long then st.long == Down(name, Pieces(|name|), k) && (k > 0
                ==> st.longStart == start) else st.long == [])
  {
    hide ShortSlot, ShortFor, ReadSlot, ScanTo, Down, Checksum, LongSlots, LongSlot;
    DownNone(name, Pieces(|name|));
    ShortForIs(name, taken);
    var news := EntrySlots(name, short, attr, cluster, size, stamp);
    var part := Replace(slots, start, news[..k]);
    ScanAtRun(slots, start, run);
    assert part[..start] == slots[..start];
    ScanSame(slots, part, start);
    if short.long {
      var longs := LongSlots(name, Pieces(|name|), Checksum(short.bytes));
      forall q | start <= q < start + k
        ensures part[q] == LongSlot(name, Pieces(|name|) - 1 - (q - start), Checksum(short.bytes))
      {
        LongSlotsAt(name, Pieces(|name|), Checksum(short.bytes), q - start);
        assert part[q] == news[..k][q - start] == longs[q - start];
      }
      LongScan(part, start, name, Checksum(short.bytes), k);
    }
  }

  /** Stopped before the short slot, or out of room for it, a new entry shows
      nothing: the directory lists what it listed. */
  lemma EntryPartial(slots: seq<Slot>, start: nat, run: nat, name: Name, short: Short, taken: set<seq<byte>>,
      attr: byte, cluster: nat, size: nat, stamp: Stamp, k: nat)
    requires Tidy(slots) && FreeRun(slots, start, run) && 0 < run && Permitted(name) && NewAttr(attr)
    requires ShortFor(name, taken) == Some(short)
    requires cluster < 0x1_0000_0000 && size < 0x1_0000_0000
    requires k < |EntrySlots(name, short, attr, cluster, size, stamp)| && k <= run
    requires k < run || start + run == |slots|
    ensures Items(Replace(slots, start, EntrySlots(name, short, attr, cluster, size, stamp)[..k])) == Items(slots)
  {
    hide EntrySlots, ReadSlot, ScanTo, Inserted, Tidy, Down;
    var news := EntrySlots(name, short, attr, cluster, size, stamp);
    if k == 0 {
      assert Replace(slots, start, news[..0]) == slots;
    } else {
      NewsScan(slots, start, run, name, short, taken, attr, cluster, size, stamp, k);
      var before := ScanTo(slots, start).items;
      assert before + [] == before;
      FillRun(slots, start, run, news[..k], []);
      InsertedNone(Items(slots), Items(Replace(slots, start, news[..k])), |before|);
    }
  }

  lemma InsertedNone(a: seq<Item>, b: seq<Item>, at: nat)
    requires Inserted(a, b, at, [])
    ensures a == b
  {
    assert a[..at] + a[at..] == a;
  }
}
