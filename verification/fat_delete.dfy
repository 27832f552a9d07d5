/** The slots of one entry deleted, first to last: what the reader makes of the
    directory at every step. */
module FatDelete {
  import opened FatLayout
  import opened FatNames
  import opened FatDirectory
  import opened FatRoundTrip

  function Dead(raw: Slot): Slot {
    raw[0 := 0xE5]
  }

  /** The slots from `f` to `m` deleted. */
  function Deleted(slots: seq<Slot>, f: nat, m: nat): (r: seq<Slot>)
    ensures |r| == |slots|
  {
    seq(|slots|, k requires 0 <= k < |slots| => if f <= k < m then Dead(slots[k]) else slots[k])
  }

  lemma DeletedMore(slots: seq<Slot>, f: nat, m: nat)
    requires f <= m < |slots|
    ensures Deleted(slots, f, m)[m := Dead(Deleted(slots, f, m)[m])] == Deleted(slots, f, m + 1)
  {
  }

  // ---- Where an item's slots are ----------------------------------------------------------------

  /** Before its first slot the reader is between entries, at item `i`; from
      there to the short slot there are only long-name slots. */
  ghost predicate Starts(slots: seq<Slot>, f: nat, n: nat, items: seq<Item>) {
    && f <= n <= |slots|
    && (forall k | f <= k < n :: IsLong(slots[k]))
    && var st := ScanTo(slots, f); st.long == [] && !st.done && st.items == items
  }

  lemma {:induction false} ItemStarts(slots: seq<Slot>, n: nat)
    requires n <= |slots|
    ensures var st := ScanTo(slots, n);
            && (forall i | 0 <= i < |st.items| ::
                  st.items[i].slot < n && Starts(slots, st.items[i].firstSlot, st.items[i].slot, st.items[..i]))
            && (!st.done && st.long != [] ==> Starts(slots, st.longStart, n, st.items))
  {
    hide ShortName, LongName, SlotUnits, SlotEntry, IsDotName, Starts;
    if n > 0 {
      ItemStarts(slots, n - 1);
      StartsNext(slots, n - 1);
      var before, after := ScanTo(slots, n - 1).items, ScanTo(slots, n).items;
      forall i | 0 <= i < |after|
        ensures after[i].slot < n && Starts(slots, after[i].firstSlot, after[i].slot, after[..i])
      {
        if i < |before| {
          assert after[i] == before[i] && after[..i] == before[..i];
        } else {
          assert after[..i] == before;
        }
      }
    }
  }

  /** A name being read goes on, or starts, at the next slot. */
  lemma StartsNext(slots: seq<Slot>, n: nat)
    requires n < |slots|
    requires var st := ScanTo(slots, n); !st.done && st.long != [] ==> Starts(slots, st.longStart, n, st.items)
    ensures var st := ScanTo(slots, n);
            && (!st.done && st.long == [] ==> Starts(slots, n, n, st.items))
            && (!st.done && IsLong(slots[n])
                ==> Starts(slots, if st.long == [] then n else st.longStart, n + 1, st.items))
  {
    hide ScanTo;
  }

  // ---- Deleting ---------------------------------------------------------------------------------

  /** The pieces of a name in the slots from `m` to `n`. */
  function PartsIn(slots: seq<Slot>, m: nat, n: nat): seq<Part>
    requires m <= n <= |slots|
  {
    seq(n - m, k requires 0 <= k < n - m => Part(slots[m + k][0] % 32, SlotUnits(slots[m + k])))
  }

  /** The name that the long-name slots from `m` up to the short slot `s` give, or
      the short slot alone. */
  function NameIn(slots: seq<Slot>, m: nat, s: nat): Name
    requires m <= s < |slots|
  {
    if m == s then ShortName(slots[s]) else LongName(PartsIn(slots, m, s))
  }

  /** Over long-name slots the reader finds no item, and collects their pieces. */
  lemma {:induction false} OverLong(slots: seq<Slot>, m: nat, n: nat)
    requires m <= n <= |slots| && !ScanTo(slots, m).done && forall k | m <= k < n :: IsLong(slots[k])
    ensures !ScanTo(slots, n).done && ScanTo(slots, n).items == ScanTo(slots, m).items
    ensures ScanTo(slots, n).long == ScanTo(slots, m).long + PartsIn(slots, m, n)
  {
    hide ShortName, LongName, SlotUnits, SlotEntry, IsDotName;
    if m < n {
      OverLong(slots, m, n - 1);
      assert PartsIn(slots, m, n) == PartsIn(slots, m, n - 1) + [Part(slots[n - 1][0] % 32, SlotUnits(slots[n - 1]))];
    } else {
      assert ScanTo(slots, m).long + PartsIn(slots, m, n) == ScanTo(slots, m).long;
    }
  }

  /** The reader at the short slot, part of what comes before it deleted. */
  lemma AtShort(slots: seq<Slot>, i: nat, m: nat)
    requires i < |Items(slots)|
    requires var item := Items(slots)[i]; item.firstSlot <= m <= item.slot
    ensures var item := Items(slots)[i];
            && item.slot < |slots|
            && var st := ScanTo(Deleted(slots, item.firstSlot, m), item.slot);
               !st.done && st.items == Items(slots)[..i] && st.long == PartsIn(slots, m, item.slot)
  {
    hide ReadSlot, ScanTo, SlotUnits;
    var item := Items(slots)[i];
    var f, s := item.firstSlot, item.slot;
    ItemStarts(slots, |slots|);
    ItemSlots(slots, |slots|);
    assert Starts(slots, f, s, Items(slots)[..i]) && ItemOk(slots, item);
    var t := Deleted(slots, f, m);
    assert t[..f] == slots[..f];
    ScanSame(slots, t, f);
    ScanOverFree(t, f, m);
    OverLong(t, m, s);
    assert PartsIn(t, m, s) == PartsIn(slots, m, s);
  }

  /** The name an item is given. */
  lemma NameRead(st: Scan, raw: Slot, k: nat)
    requires |ReadSlot(st, raw, k).items| == |st.items| + 1
    ensures ReadSlot(st, raw, k).items[|st.items|].name == if st.long == [] then ShortName(raw) else LongName(st.long)
  {
    hide ShortName, LongName, SlotUnits, SlotEntry, IsDotName;
  }

  /** Items once read stay. */
  lemma {:induction false} ItemsStay(slots: seq<Slot>, m: nat, n: nat)
    requires m <= n <= |slots|
    ensures ScanTo(slots, m).items <= ScanTo(slots, n).items
  {
    hide ReadSlot, SlotEntry;
    if m < n {
      ItemsStay(slots, m, n - 1);
      ReadAdds(ScanTo(slots, n - 1), slots[n - 1], n - 1);
    }
  }

  /** The short slot read in the middle of a deletion: the same entry, under
      whatever name is left, or nothing. */
  ghost predicate Left(before: seq<Item>, after: seq<Item>, i: nat) {
    && |after| == |before| && i < |before|
    && (forall k | 0 <= k < |before| && k != i :: after[k] == before[k])
    && after[i].entry == before[i].entry
  }

  ghost predicate LeftScan(a: Scan, b: Scan, i: nat) {
    && Left(a.items, b.items, i)
    && (a.done <==> b.done) && (!a.done ==> a.long == b.long && (a.long != [] ==> a.longStart == b.longStart))
  }

  lemma LeftStep(a: Scan, b: Scan, i: nat, raw: Slot, k: nat)
    requires LeftScan(a, b, i)
    ensures LeftScan(ReadSlot(a, raw, k), ReadSlot(b, raw, k), i)
  {
    hide ShortName, LongName, SlotUnits, SlotEntry, IsDotName;
  }

  lemma {:induction false} LeftOn(x: seq<Slot>, y: seq<Slot>, m: nat, n: nat, i: nat)
    requires m <= n <= |x| == |y| && forall k | m <= k < n :: x[k] == y[k]
    requires LeftScan(ScanTo(x, m), ScanTo(y, m), i)
    ensures LeftScan(ScanTo(x, n), ScanTo(y, n), i)
  {
    hide LeftScan, ReadSlot;
    if m < n {
      LeftOn(x, y, m, n - 1, i);
      LeftStep(ScanTo(x, n - 1), ScanTo(y, n - 1), i, x[n - 1], n - 1);
    }
  }

  /** One slot read by two readers with the same items behind them: if the first
      finds an item there, the second finds its entry or nothing. */
  lemma ReadBoth(a: Scan, b: Scan, raw: Slot, k: nat)
    requires !a.done && !b.done && a.items == b.items && |ReadSlot(a, raw, k).items| == |a.items| + 1
    ensures var x, y := ReadSlot(a, raw, k), ReadSlot(b, raw, k);
            && x.long == [] == y.long && !x.done && !y.done && x.items[..|a.items|] == a.items
            && (y.items == a.items || Left(x.items, y.items, |a.items|))
  {
    hide ShortName, LongName, SlotUnits, SlotEntry, IsDotName;
  }

  lemma LeftGrew(before: seq<Item>, after: seq<Item>, i: nat)
    requires Left(before, after, i) && |before| == i + 1
    ensures |after| == i + 1
  {
  }

  lemma ReadDead(st: Scan, raw: Slot, k: nat)
    requires !st.done
    ensures ReadSlot(st, Dead(raw), k) == st.(long := [])
  {
  }

  /** What the reader knows after the short slot of item `i`. */
  lemma {:induction false} AfterItem(slots: seq<Slot>, i: nat, n: nat)
    requires n <= |slots| && i < |ScanTo(slots, n).items|
    ensures var item := ScanTo(slots, n).items[i];
            && item.slot < n && ScanTo(slots, item.slot + 1).items == ScanTo(slots, n).items[..i + 1]
            && !ScanTo(slots, item.slot).done && ScanTo(slots, item.slot).items == ScanTo(slots, n).items[..i]
  {
    hide ReadSlot, SlotEntry;
    var before, after := ScanTo(slots, n - 1).items, ScanTo(slots, n).items;
    ReadAdds(ScanTo(slots, n - 1), slots[n - 1], n - 1);
    if i < |before| {
      AfterItem(slots, i, n - 1);
      assert after[i] == before[i] && after[..i + 1] == before[..i + 1] && after[..i] == before[..i];
    } else {
      assert after[..i + 1] == after && after[..i] == before;
      AddedNotDone(ScanTo(slots, n - 1), slots[n - 1], n - 1);
    }
  }

  lemma AddedNotDone(st: Scan, raw: Slot, k: nat)
    requires ReadSlot(st, raw, k).items != st.items
    ensures !st.done
  {
    hide ShortName, LongName, SlotUnits, SlotEntry, IsDotName;
  }

  /** With its slots deleted up to `m`, an entry is still there, under the name its
      remaining slots give, or gone; with the last one deleted it is gone. All
      others stay as they were. */
  lemma DeletedItems(slots: seq<Slot>, i: nat, m: nat)
    requires i < |Items(slots)|
    requires var item := Items(slots)[i]; item.firstSlot <= m <= item.slot + 1
    ensures var item := Items(slots)[i];
            var after := Items(Deleted(slots, item.firstSlot, m));
            && item.slot < |slots|
            && (Inserted(after, Items(slots), i, [item])
                || (m <= item.slot && Left(Items(slots), after, i) && after[i].name == NameIn(slots, m, item.slot)))
    ensures Items(slots)[i].firstSlot <= Items(slots)[i].slot < |slots|
  {
    hide ReadSlot, ScanTo, SlotEntry, Inserted, Left, ShortName, LongName, SlotUnits;
    var item := Items(slots)[i];
    var f, s := item.firstSlot, item.slot;
    var t := Deleted(slots, f, m);
    ItemSlots(slots, |slots|);
    AfterItem(slots, i, |slots|);
    assert ItemOk(slots, item);
    ScanStep(slots, s);
    ScanStep(t, s);
    AtShort(slots, i, if m <= s then m else s);
    var x := Items(slots)[..i];
    assert Items(slots)[..i + 1] == x + [item];
    if m <= s {
      ReadBoth(ScanTo(slots, s), ScanTo(t, s), slots[s], s);
      if ScanTo(t, s + 1).items != x {
        LeftGrew(ScanTo(slots, s + 1).items, ScanTo(t, s + 1).items, i);
        NameRead(ScanTo(t, s), slots[s], s);
        ItemsStay(t, s + 1, |t|);
        assert Items(t)[i] == ScanTo(t, s + 1).items[i];
      }
    } else {
      assert t[..s] == Deleted(slots, f, s)[..s];
      ScanSame(t, Deleted(slots, f, s), s);
      ReadDead(ScanTo(t, s), slots[s], s);
      ReadBoth(ScanTo(slots, s), ScanTo(slots, s), slots[s], s);
    }
    if ScanTo(t, s + 1).items == x {
      InsertedLast(x, [item]);
      GrewOn(t, slots, s + 1, |slots|, i, [item]);
    } else {
      LeftOn(slots, t, s + 1, |slots|, i);
    }
  }

  /** Deleting keeps the slots in order. */
  lemma DeletedTidy(slots: seq<Slot>, i: nat, m: nat)
    requires Tidy(slots) && i < |Items(slots)|
    requires var item := Items(slots)[i]; item.firstSlot <= m <= item.slot + 1
    ensures Tidy(Deleted(slots, Items(slots)[i].firstSlot, m))
  {
    hide ScanTo, SlotEntry;
    var item := Items(slots)[i];
    var f, s := item.firstSlot, item.slot;
    ItemStarts(slots, |slots|);
    ItemSlots(slots, |slots|);
    assert Starts(slots, f, s, Items(slots)[..i]) && ItemOk(slots, item);
    if f > 0 && IsLong(slots[f - 1]) {
      LongBefore(slots, f);
    }
    var t := Deleted(slots, f, m);
    assert forall a | 0 <= a <= s :: slots[a][0] != 0x00;
    forall a, b | 0 <= a <= b < |t| && t[a][0] == 0x00
      ensures t[b][0] == 0x00
    {
      assert slots[a][0] == 0x00 && slots[b][0] == 0x00;
    }
    forall k | 0 <= k < |t| && IsLong(t[k])
      ensures k + 1 < |t| && !IsFree(t[k + 1])
    {
      assert IsLong(slots[k]) && !IsFree(slots[k + 1]);
    }
  }

  /** After a long-name slot the reader is in the middle of a name. */
  lemma LongBefore(slots: seq<Slot>, n: nat)
    requires 0 < n <= |slots| && IsLong(slots[n - 1]) && !ScanTo(slots, n).done
    ensures ScanTo(slots, n).long != []
  {
    hide ShortName, LongName, SlotUnits, SlotEntry, IsDotName;
  }
}
