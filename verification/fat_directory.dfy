/** A directory as the list of its 32-byte slots: the entries the reader finds
    in it, and what one rewritten slot does to them. */
module FatDirectory {
  import opened Base
  import opened FatLayout
  import opened FatData
  import opened FatNames

  /** One entry as it sits in the directory, with where its slots are. */
  datatype Item = Item(name: Name, short: seq<byte>, entry: Entry, firstSlot: nat, slot: nat)

  /** The reader's state after some slots. */
  datatype Scan = Scan(items: seq<Item>, long: seq<Part>, longStart: nat, done: bool)

  predicate IsFree(raw: Slot) {
    raw[0] == 0x00 || raw[0] == 0xE5
  }

  predicate IsLong(raw: Slot) {
    !IsFree(raw) && raw[11] == ATTR_LONG
  }

  predicate IsDotName(name: Name) {
    name == [DOT] || name == [DOT, DOT]
  }

  function SlotEntry(raw: Slot): Entry {
    Entry(Word(raw[26], raw[27], raw[20], raw[21]), Word(raw[28], raw[29], raw[30], raw[31]), raw[11] / 16 % 2 == 1)
  }

  /** What the reader does with one slot. */
  function ReadSlot(st: Scan, raw: Slot, k: nat): Scan {
    if st.done then st
    else if raw[0] == 0x00 then st.(done := true)
    else if raw[0] == 0xE5 then st.(long := [])
    else if raw[11] == ATTR_LONG then
      st.(longStart := if st.long == [] then k else st.longStart, long := st.long + [Part(raw[0] % 32, SlotUnits(raw))])
    else if raw[11] / 8 % 2 == 1 then st.(long := [])
    else
      var (name, first) := if st.long == [] then (ShortName(raw), k) else (LongName(st.long), st.longStart);
      if IsDotName(name) then st.(long := [])
      else st.(long := [], items := st.items + [Item(name, raw[..11], SlotEntry(raw), first, k)])
  }

  /** The reader after the first `n` slots. */
  function ScanTo(slots: seq<Slot>, n: nat): Scan
    requires n <= |slots|
  {
    if n == 0 then Scan([], [], 0, false) else ReadSlot(ScanTo(slots, n - 1), slots[n - 1], n - 1)
  }

  function Items(slots: seq<Slot>): seq<Item> {
    ScanTo(slots, |slots|).items
  }

  lemma {:induction false} ScanSame(a: seq<Slot>, b: seq<Slot>, n: nat)
    requires n <= |a| && n <= |b| && a[..n] == b[..n]
    ensures ScanTo(a, n) == ScanTo(b, n)
  {
    if n > 0 {
      assert a[..n][..n - 1] == a[..n - 1] && b[..n][..n - 1] == b[..n - 1];
      assert a[n - 1] == a[..n][n - 1] == b[..n][n - 1];
      ScanSame(a, b, n - 1);
    }
  }

  lemma {:induction false} DoneStays(slots: seq<Slot>, m: nat, n: nat)
    requires m <= n <= |slots| && ScanTo(slots, m).done
    ensures ScanTo(slots, n) == ScanTo(slots, m)
  {
    hide ShortName, LongName, SlotUnits, SlotEntry, IsDotName;
    if m < n {
      DoneStays(slots, m, n - 1);
    }
  }

  ghost predicate ItemOk(slots: seq<Slot>, item: Item) {
    && item.firstSlot <= item.slot < |slots|
    && !IsFree(slots[item.slot]) && !IsLong(slots[item.slot])
    && item.entry == SlotEntry(slots[item.slot]) && item.short == slots[item.slot][..11]
  }

  ghost predicate BySlot(items: seq<Item>, n: nat) {
    && (forall i | 0 <= i < |items| :: items[i].slot < n)
    && (forall i, j | 0 <= i < j < |items| :: items[i].slot < items[j].slot)
  }

  /** One slot adds at most one item, its own, at the end. */
  lemma ReadAdds(st: Scan, raw: Slot, k: nat)
    ensures var after := ReadSlot(st, raw, k);
            after.items == st.items
            || (&& !IsFree(raw) && !IsLong(raw) && |after.items| == |st.items| + 1
                && after.items[..|st.items|] == st.items
                && var item := after.items[|st.items|];
                   && item.slot == k && item.entry == SlotEntry(raw) && item.short == raw[..11]
                   && item.firstSlot == if st.long == [] then k else st.longStart)
    ensures var after := ReadSlot(st, raw, k);
            after.long != [] ==> after.longStart == if st.long == [] then k else st.longStart
  {
    hide ShortName, LongName, SlotUnits, SlotEntry, IsDotName;
  }

  /** Every item comes from its own slot, in slot order. */
  lemma {:induction false} ItemSlots(slots: seq<Slot>, n: nat)
    requires n <= |slots|
    ensures BySlot(ScanTo(slots, n).items, n)
    ensures forall i | 0 <= i < |ScanTo(slots, n).items| :: ItemOk(slots, ScanTo(slots, n).items[i])
    ensures ScanTo(slots, n).long != [] ==> ScanTo(slots, n).longStart < n
  {
    hide ReadSlot, SlotEntry;
    if n > 0 {
      ItemSlots(slots, n - 1);
      var before, after := ScanTo(slots, n - 1).items, ScanTo(slots, n).items;
      ReadAdds(ScanTo(slots, n - 1), slots[n - 1], n - 1);
      forall i, j | 0 <= i < j < |after|
        ensures after[i].slot < after[j].slot
      {
        assert after[i] == before[i];
        assert j < |before| ==> after[j] == before[j];
      }
      forall i | 0 <= i < |after|
        ensures ItemOk(slots, after[i]) && after[i].slot < n
      {
        assert i < |before| ==> after[i] == before[i];
      }
    }
  }

  // ---- The order slots keep ---------------------------------------------------------------------

  /** After the end marker there are only end markers. */
  ghost predicate TailFree(slots: seq<Slot>) {
    forall i, j | 0 <= i <= j < |slots| && slots[i][0] == 0x00 :: slots[j][0] == 0x00
  }

  /** A long-name slot is followed by the rest of its entry. */
  ghost predicate NoOrphans(slots: seq<Slot>) {
    forall k | 0 <= k < |slots| && IsLong(slots[k]) :: k + 1 < |slots| && !IsFree(slots[k + 1])
  }

  ghost predicate Tidy(slots: seq<Slot>) {
    TailFree(slots) && NoOrphans(slots)
  }

  /** `n` free slots from `start` on, the first one of their run. */
  ghost predicate FreeRun(slots: seq<Slot>, start: nat, n: nat) {
    && start + n <= |slots|
    && (forall k | start <= k < start + n :: IsFree(slots[k]))
    && (start > 0 ==> !IsFree(slots[start - 1]))
  }

  /** A reader reaches a free run between two entries. */
  lemma ScanAtRun(slots: seq<Slot>, start: nat, n: nat)
    requires Tidy(slots) && FreeRun(slots, start, n) && n > 0
    ensures ScanTo(slots, start).long == [] && !ScanTo(slots, start).done
  {
    hide ShortName, LongName, SlotUnits, SlotEntry, IsDotName;
    NotDone(slots, start);
    if start > 0 {
      assert IsFree(slots[start]) && !IsLong(slots[start - 1]);
      NotDone(slots, start - 1);
    }
  }

  lemma {:induction false} NotDone(slots: seq<Slot>, n: nat)
    requires TailFree(slots) && n <= |slots| && (n > 0 ==> slots[n - 1][0] != 0x00)
    ensures !ScanTo(slots, n).done
  {
    hide ShortName, LongName, SlotUnits, SlotEntry, IsDotName;
    if n > 0 {
      assert n > 1 ==> slots[n - 2][0] != 0x00;
      NotDone(slots, n - 1);
    }
  }

  /** Over free slots a reader that is between entries finds nothing. */
  lemma {:induction false} ScanOverFree(slots: seq<Slot>, start: nat, n: nat)
    requires start <= n <= |slots| && forall k | start <= k < n :: IsFree(slots[k])
    requires ScanTo(slots, start).long == []
    ensures ScanTo(slots, n).items == ScanTo(slots, start).items && ScanTo(slots, n).long == []
    ensures (forall k | start <= k < n :: slots[k][0] != 0x00) ==> ScanTo(slots, n).done == ScanTo(slots, start).done
    ensures !ScanTo(slots, start).done && ScanTo(slots, n).done ==> exists k :: start <= k < n && slots[k][0] == 0x00
  {
    hide ReadSlot;
    if start < n {
      ScanOverFree(slots, start, n - 1);
      ReadFree(ScanTo(slots, n - 1), slots[n - 1], n - 1);
    }
  }

  // ---- Two directories that differ in some slots ------------------------------------------------

  /** `b` found what `a` found, with `extra` in between. */
  ghost predicate Grew(a: Scan, b: Scan, at: nat, extra: seq<Item>) {
    && Inserted(a.items, b.items, at, extra)
    && (a.done <==> b.done) && (!a.done ==> a.long == b.long && (a.long != [] ==> a.longStart == b.longStart))
  }

  lemma GrewStep(a: Scan, b: Scan, at: nat, extra: seq<Item>, raw: Slot, k: nat)
    requires Grew(a, b, at, extra)
    ensures Grew(ReadSlot(a, raw, k), ReadSlot(b, raw, k), at, extra)
  {
    hide ShortName, LongName, SlotUnits, SlotEntry, IsDotName;
    var a', b' := ReadSlot(a, raw, k), ReadSlot(b, raw, k);
    if a'.items != a.items {
      var item := a'.items[|a.items|];
      assert a'.items == a.items + [item] && b'.items == b.items + [item];
      assert a'.items[..at] == a.items[..at];
      assert a'.items[at..] == a.items[at..] + [item];
    }
  }

  /** Once in step, two readers over the same slots stay in step. */
  lemma {:induction false} GrewOn(x: seq<Slot>, y: seq<Slot>, m: nat, n: nat, at: nat, extra: seq<Item>)
    requires m <= n <= |x| == |y| && forall k | m <= k < n :: x[k] == y[k]
    requires Grew(ScanTo(x, m), ScanTo(y, m), at, extra)
    ensures Grew(ScanTo(x, n), ScanTo(y, n), at, extra)
  {
    hide Grew, ReadSlot;
    if m < n {
      GrewOn(x, y, m, n - 1, at, extra);
      GrewStep(ScanTo(x, n - 1), ScanTo(y, n - 1), at, extra, x[n - 1], n - 1);
    }
  }

  function Replace(slots: seq<Slot>, start: nat, news: seq<Slot>): (r: seq<Slot>)
    requires start + |news| <= |slots|
    ensures |r| == |slots|
  {
    slots[..start] + news + slots[start + |news|..]
  }

  ghost predicate Inserted(a: seq<Item>, b: seq<Item>, at: nat, extra: seq<Item>) {
    at <= |a| && b == a[..at] + extra + a[at..]
  }

  lemma InsertedLast(a: seq<Item>, extra: seq<Item>)
    ensures Inserted(a, a + extra, |a|, extra)
  {
    assert a[..|a|] == a && a[|a|..] == [];
  }

  lemma ReadFree(st: Scan, raw: Slot, k: nat)
    requires IsFree(raw)
    ensures ReadSlot(st, raw,
            k) == if st.done then st else if raw[0] == 0x00 then st.(done := true) else st.(long := [])
  {
  }

  /** Slots put into a free run past which the old reader saw the end marker. */
  lemma FillAtEnd(slots: seq<Slot>, filled: seq<Slot>, m: nat, extra: seq<Item>)
    requires m <= |slots| == |filled| && ScanTo(slots, m).done && !ScanTo(filled, m).done
    requires m < |slots| ==> filled[m][0] == 0x00
    requires ScanTo(filled, m).items == ScanTo(slots, m).items + extra
    ensures Inserted(Items(slots), Items(filled), |ScanTo(slots, m).items|, extra)
  {
    hide ReadSlot, Inserted;
    DoneStays(slots, m, |slots|);
    InsertedLast(ScanTo(slots, m).items, extra);
    if m < |slots| {
      ReadFree(ScanTo(filled, m), filled[m], m);
      DoneStays(filled, m + 1, |slots|);
    }
  }

  /** Slots put into a free run where the old reader reads on. */
  lemma FillMidway(slots: seq<Slot>, filled: seq<Slot>, m: nat, extra: seq<Item>)
    requires m <= |slots| == |filled| && !ScanTo(slots, m).done && !ScanTo(filled, m).done
    requires ScanTo(slots, m).long == []
    requires forall k | m <= k < |slots| :: slots[k] == filled[k]
    requires ScanTo(filled, m).long == [] || m == |slots| || IsFree(slots[m])
    requires ScanTo(filled, m).items == ScanTo(slots, m).items + extra
    ensures Inserted(Items(slots), Items(filled), |ScanTo(slots, m).items|, extra)
  {
    hide ReadSlot, Inserted;
    var at := |ScanTo(slots, m).items|;
    InsertedLast(ScanTo(slots, m).items, extra);
    if ScanTo(filled, m).long == [] {
      GrewOn(slots, filled, m, |slots|, at, extra);
    } else if m < |slots| {
      ReadFree(ScanTo(slots, m), slots[m], m);
      ReadFree(ScanTo(filled, m), slots[m], m);
      GrewOn(slots, filled, m + 1, |slots|, at, extra);
    }
  }

  /** Filling part of a free run with slots that leave the reader with `extra`
      and between entries (or with more of the run, or nothing, to read) adds
      exactly `extra`, and moves nothing else. */
  lemma FillRun(slots: seq<Slot>, start: nat, n: nat, news: seq<Slot>, extra: seq<Item>)
    requires Tidy(slots) && FreeRun(slots, start, n) && 0 < |news| <= n
    requires var filled := Replace(slots, start, news);
             var before, after := ScanTo(slots, start), ScanTo(filled, start + |news|);
             !after.done && after.items == before.items + extra && (after.long == [] || |news| < n
                 || start + n == |slots|)
    ensures Inserted(Items(slots), Items(Replace(slots, start, news)), |ScanTo(slots, start).items|, extra)
  {
    hide ReadSlot, Inserted, ScanTo;
    var filled := Replace(slots, start, news);
    var m := start + |news|;
    ScanAtRun(slots, start, n);
    ScanOverFree(slots, start, m);
    forall k | m <= k < |slots|
      ensures slots[k] == filled[k]
    {
      assert filled[k] == slots[m..][k - m];
    }
    if ScanTo(slots, m).done {
      var k :| start <= k < m && slots[k][0] == 0x00;
      assert m < |slots| ==> slots[m][0] == 0x00;
      FillAtEnd(slots, filled, m, extra);
    } else {
      FillMidway(slots, filled, m, extra);
    }
  }
}
