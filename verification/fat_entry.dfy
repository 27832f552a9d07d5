/** The two ways an entry is switched: its short slot rewritten in place, or the
    slots of a new entry written into a free run. */
module FatEntry {
  import opened Base
  import opened FatLayout
  import opened FatData
  import opened FatNames
  import opened FatDirectory
  import opened FatRoundTrip
  import opened FatTree
  import opened FatFrame
  import opened FatPaths
  import opened FatSlots
  import opened FatSwitch

  // ---- An entry rewritten in place --------------------------------------------------------------

  /** A short slot led to another chain: cluster, size and dates change, the
      name and the kind do not. */
  function Repoint(raw: Slot, cluster: nat, size: nat, stamp: Stamp): Slot
    requires cluster < 0x1_0000_0000 && size < 0x1_0000_0000
  {
    raw[..18] + Le2(stamp.date) + Le2(cluster / 0x1_0000) + Le2(stamp.time) + Le2(stamp.date)
    + Le2(cluster % 0x1_0000) + Le4(size)
  }

  lemma RepointRead(raw: Slot, cluster: nat, size: nat, stamp: Stamp)
    requires cluster < 0x1_0000_0000 && size < 0x1_0000_0000
    ensures var to := Repoint(raw, cluster, size, stamp);
            && to[..18] == raw[..18] && ShortName(to) == ShortName(raw)
            && SlotEntry(to) == Entry(cluster, size, raw[11] / 16 % 2 == 1)
  {
    hide Shown;
    var to := Repoint(raw, cluster, size, stamp);
    ClusterBytes(cluster);
    WordLe4(size);
    var high, low := Le2(cluster / 0x1_0000), Le2(cluster % 0x1_0000);
    assert to[20] == high[0] && to[21] == high[1] && to[26] == low[0] && to[27] == low[1];
    assert to[28] == Le4(size)[0] && to[29] == Le4(size)[1] && to[30] == Le4(size)[2] && to[31] == Le4(size)[3];
    assert to[..8] == to[..18][..8] && raw[..8] == raw[..18][..8];
    assert to[8..11] == to[..18][8..11] && raw[8..11] == raw[..18][8..11];
    assert forall i | 0 <= i < 18 :: to[i] == raw[i];
  }

  /** `b` found what `a` found, the item of slot `s` leading to `entry`. */
  ghost predicate Renewed(a: Scan, b: Scan, s: nat, entry: Entry) {
    && |a.items| == |b.items|
    && (forall k | 0 <= k < |a.items| :: b.items[k] == if a.items[k].slot == s then a.items[k].(entry := entry)
        else a.items[k])
    && a.long == b.long && a.longStart == b.longStart && a.done == b.done
  }

  lemma RenewedStep(a: Scan, b: Scan, s: nat, entry: Entry, raw: Slot, k: nat)
    requires Renewed(a, b, s, entry) && k != s
    ensures Renewed(ReadSlot(a, raw, k), ReadSlot(b, raw, k), s, entry)
  {
    hide ShortName, LongName, SlotUnits, SlotEntry, IsDotName;
  }

  lemma RenewedHere(a: Scan, s: nat, raw: Slot, cluster: nat, size: nat, stamp: Stamp)
    requires cluster < 0x1_0000_0000 && size < 0x1_0000_0000
    requires !IsFree(raw) && !IsLong(raw) && forall k | 0 <= k < |a.items| :: a.items[k].slot != s
    ensures Renewed(ReadSlot(a, raw, s), ReadSlot(a, Repoint(raw, cluster, size, stamp), s), s,
                    Entry(cluster, size, raw[11] / 16 % 2 == 1))
  {
    hide ShortName, LongName, SlotUnits, SlotEntry, IsDotName, Repoint;
    var to := Repoint(raw, cluster, size, stamp);
    RepointRead(raw, cluster, size, stamp);
    assert to[0] == to[..18][0] && raw[0] == raw[..18][0];
    assert to[11] == to[..18][11] && raw[11] == raw[..18][11];
    assert to[..11] == to[..18][..11] && raw[..11] == raw[..18][..11];
  }

  lemma {:induction false} RenewedScan(slots: seq<Slot>, s: nat, cluster: nat, size: nat, stamp: Stamp, n: nat)
    requires s < n <= |slots| && !IsFree(slots[s]) && !IsLong(slots[s])
    requires cluster < 0x1_0000_0000 && size < 0x1_0000_0000
    ensures Renewed(ScanTo(slots, n), ScanTo(slots[s := Repoint(slots[s], cluster, size, stamp)], n), s,
                    Entry(cluster, size, slots[s][11] / 16 % 2 == 1))
  {
    hide ReadSlot, Repoint, Renewed;
    var to := Repoint(slots[s], cluster, size, stamp);
    var after := slots[s := to];
    if n == s + 1 {
      assert after[..s] == slots[..s];
      ScanSame(slots, after, s);
      ItemSlots(slots, s);
      ScanStep(slots, s);
      ScanStep(after, s);
      RenewedHere(ScanTo(slots, s), s, slots[s], cluster, size, stamp);
    } else {
      RenewedScan(slots, s, cluster, size, stamp, n - 1);
      ScanStep(slots, n - 1);
      ScanStep(after, n - 1);
      RenewedStep(ScanTo(slots, n - 1), ScanTo(after, n - 1), s, Entry(cluster, size, slots[s][11] / 16 % 2 == 1),
                  slots[n - 1], n - 1);
    }
  }

  /** Rewriting the short slot of item `i` switches that item, and only it. */
  lemma RepointSwitch(v: Volume, slots: seq<Slot>, i: nat, name: Name, cluster: nat, size: nat, stamp: Stamp)
    requires i < |Items(slots)| && Lookup(v, Items(slots), name) == Some(i) && !Items(slots)[i].entry.directory
    requires cluster < 0x1_0000_0000 && size < 0x1_0000_0000
    ensures var s := Items(slots)[i].slot;
            && s < |slots|
            && SwitchItems(v, Items(slots), Items(slots[s := Repoint(slots[s], cluster, size, stamp)]), name, i, i + 1,
                           Entry(cluster, size, false))
  {
    hide ScanTo, Repoint, SlotEntry;
    var before := Items(slots);
    ItemSlots(slots, |slots|);
    assert ItemOk(slots, before[i]);
    var s := before[i].slot;
    RenewedScan(slots, s, cluster, size, stamp, |slots|);
    SlotKind(slots[s]);
    var after := Items(slots[s := Repoint(slots[s], cluster, size, stamp)]);
    forall k | 0 <= k < |before|
      ensures after[k] == if k == i then before[k].(entry := Entry(cluster, size, false)) else before[k]
    {
      assert k < i ==> before[k].slot < before[i].slot;
      assert i < k ==> before[i].slot < before[k].slot;
    }
    RenewedSwitch(v, before, after, i, name, Entry(cluster, size, false));
  }

  lemma SlotKind(raw: Slot)
    ensures SlotEntry(raw).directory <==> raw[11] / 16 % 2 == 1
  {
  }

  lemma RenewedSwitch(v: Volume, before: seq<Item>, after: seq<Item>, i: nat, name: Name, entry: Entry)
    requires |before| == |after| && i < |before| && Lookup(v, before, name) == Some(i) && !before[i].entry.directory
    requires forall k | 0 <= k < |before| :: after[k] == if k == i then before[k].(entry := entry) else before[k]
    ensures SwitchItems(v, before, after, name, i, i + 1, entry)
  {
    LookupRenewed(v, before, after, name);
    forall n: Name | !v.SameName(n, name)
      ensures LookupEntry(v, after, n) == LookupEntry(v, before, n)
    {
      LookupRenewed(v, before, after, n);
    }
  }

  // ---- A new entry ------------------------------------------------------------------------------

  /** The slots of a new entry switch a name nothing had, provided the name is
      read back as it was given. */
  lemma AddSwitch(v: Volume, slots: seq<Slot>, start: nat, run: nat, name: Name, short: Short, taken: set<seq<byte>>,
      attr: byte, cluster: nat, size: nat, stamp: Stamp)
    requires Tidy(slots) && FreeRun(slots, start, run) && Permitted(name) && NewAttr(attr)
    requires ShortFor(name, taken) == Some(short) && ReadBack(name) == name
    requires cluster < 0x1_0000_0000 && size < 0x1_0000_0000
    requires |EntrySlots(name, short, attr, cluster, size, stamp)| <= run
    requires Lookup(v, Items(slots), name) == None
    ensures var at := |ScanTo(slots, start).items|;
            SwitchItems(v, Items(slots), Items(Replace(slots, start, EntrySlots(name, short, attr, cluster, size,
                stamp))), name,
                        at, at, Entry(cluster, size, attr == ATTR_DIRECTORY))
  {
    hide ScanTo, EntrySlots, ShortFor, Tidy, Items, ReadBack, Lookup, IsDotName;
    var news := EntrySlots(name, short, attr, cluster, size, stamp);
    EntryAdded(slots, start, run, name, short, taken, attr, cluster, size, stamp);
    var item := NewItem(name, short, attr, cluster, size, start, |news|);
    InsertedSwitch(v, Items(slots), Items(Replace(slots, start, news)), |ScanTo(slots, start).items|, item);
  }

  lemma InsertedSwitch(v: Volume, before: seq<Item>, after: seq<Item>, at: nat, item: Item)
    requires Inserted(before, after, at, [item]) && Lookup(v, before, item.name) == None
    ensures SwitchItems(v, before, after, item.name, at, at, item.entry)
  {
    hide Lookup;
    forall n: Name
      ensures LookupEntry(v, after, n) == if v.SameName(n, item.name) then Some(item.entry) else LookupEntry(v,
              before, n)
    {
      LookupInserted(v, before, after, at, item, n);
    }
    forall k | 0 <= k < |after|
      ensures after[k].entry == if k == at then item.entry else before[Origin(k, at, at, 1)].entry
    {
      assert k < at ==> after[k] == before[k];
      assert k > at ==> after[k] == before[at..][k - 1 - at];
    }
  }

  // ---- Tidiness kept ----------------------------------------------------------------------------

  lemma RepointTidy(slots: seq<Slot>, s: nat, cluster: nat, size: nat, stamp: Stamp)
    requires Tidy(slots) && s < |slots| && !IsFree(slots[s]) && !IsLong(slots[s])
    requires cluster < 0x1_0000_0000 && size < 0x1_0000_0000
    ensures Tidy(slots[s := Repoint(slots[s], cluster, size, stamp)])
  {
    hide Repoint;
    var to := Repoint(slots[s], cluster, size, stamp);
    RepointRead(slots[s], cluster, size, stamp);
    assert to[0] == to[..18][0] == slots[s][..18][0] && to[11] == to[..18][11] == slots[s][..18][11];
    var after := slots[s := to];
    forall k | 0 <= k < |after| && IsLong(after[k])
      ensures k + 1 < |after| && !IsFree(after[k + 1])
    {
      assert IsLong(slots[k]);
    }
  }

  /** Long-name slots, then the short slot: none free, only the last one short. */
  lemma NewsKinds(name: Name, short: Short, taken: set<seq<byte>>, attr: byte, cluster: nat, size: nat, stamp: Stamp)
    requires Permitted(name) && NewAttr(attr) && ShortFor(name, taken) == Some(short)
    requires cluster < 0x1_0000_0000 && size < 0x1_0000_0000
    ensures var news := EntrySlots(name, short, attr, cluster, size, stamp);
            && (forall k | 0 <= k < |news| :: !IsFree(news[k])) && !IsLong(news[|news| - 1])
  {
    hide ShortFor, ShortSlot, LongSlot, SlotUnits, SlotEntry;
    ShortForIs(name, taken);
    var news := EntrySlots(name, short, attr, cluster, size, stamp);
    var raw := ShortSlot(short, attr, cluster, size, stamp);
    ShortSlotRead(short, attr, cluster, size, stamp);
    assert raw[0] == raw[..11][0];
    if short.long {
      var n := Pieces(|name|);
      forall k | 0 <= k < |news| - 1
        ensures !IsFree(news[k])
      {
        LongSlotsAt(name, n, Checksum(short.bytes), k);
        LongSlotRead(name, n - 1 - k, Checksum(short.bytes));
      }
    }
  }

  lemma FillTidy(slots: seq<Slot>, start: nat, run: nat, news: seq<Slot>)
    requires Tidy(slots) && FreeRun(slots, start, run) && 0 < |news| <= run
    requires (forall k | 0 <= k < |news| :: !IsFree(news[k])) && !IsLong(news[|news| - 1])
    ensures Tidy(Replace(slots, start, news))
  {
    var filled := Replace(slots, start, news);
    var m := start + |news|;
    assert forall k | 0 <= k < start :: filled[k] == slots[k];
    assert forall k | start <= k < m :: filled[k] == news[k - start];
    assert forall k | m <= k < |slots| :: filled[k] == slots[m..][k - m];
    forall i | 0 <= i < m
      ensures filled[i][0] != 0x00
    {
      if i < start {
        assert slots[start - 1][0] != 0x00 && slots[i][0] != 0x00;
      } else {
        assert !IsFree(news[i - start]);
      }
    }
    forall k | 0 <= k < |filled| && IsLong(filled[k])
      ensures k + 1 < |filled| && !IsFree(filled[k + 1])
    {
      if k < start {
        assert IsLong(slots[k]) && !IsFree(slots[k + 1]);
        assert IsFree(slots[start]);
      } else if k >= m {
        assert IsLong(slots[k]) && !IsFree(slots[k + 1]);
      }
    }
  }
}
