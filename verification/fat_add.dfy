/** A new entry in a directory: where its slots go, and what its writes read as
    when they stop half-way. */
module FatAdd {
  import opened Base
  import opened Blocks
  import opened FatLayout
  import opened FatData
  import opened FatNames
  import opened FatDirectory
  import opened FatRoundTrip
  import opened FatTree
  import opened FatSlots
  import opened FatSwitch
  import opened FatEntry
  import opened FatAtomic

  // ---- Room -------------------------------------------------------------------------------------

  /** The first run of `n` free slots, of either kind. Without one, `start` and `run` are the free slots the
      directory ends with (run 0 when it ends with none). */
  method FindRoom(slots: seq<Slot>, n: nat) returns (start: nat, run: nat)
    requires 0 < n && TailFree(slots)
    ensures FreeRun(slots, start, run)
    ensures run < n ==> start + run == |slots|
    ensures run < n ==> forall s | 0 <= s && s + n <= |slots| :: !FreeRun(slots, s, n)
  {
    start, run := 0, 0;
    for index := 0 to |slots|
      invariant run < n && start + run == index && FreeRun(slots, start, run)
      invariant forall s | 0 <= s && s + n <= index :: !FreeRun(slots, s, n)
      invariant forall s | 0 <= s < start && FreeRun(slots, s, n) :: s + n <= start
      invariant run > 0 ==> slots[start][0] == 0xE5
    {
      var first := slots[index][0];
      if first == 0x00 {
        run := |slots| - start;
        forall s | 0 <= s && s + n <= |slots| && run < n
          ensures !FreeRun(slots, s, n)
        {
          assert s + n <= start || s >= start || IsFree(slots[s + n - 1]);
        }
        return;
      }
      if first == 0xE5 {
        run := run + 1;
        if run >= n {
          return;
        }
      } else {
        start, run := index + 1, 0;
      }
    }
  }

  // ---- Writing the slots ------------------------------------------------------------------------

  lemma SlotsNone(v: Volume, d: Image, chain: seq<nat>, start: nat)
    requires v.Holds(d) && start <= |DirSlots(v, d, chain)|
    ensures SlotsLog(v, d, chain, start, [], [])
  {
    hide DirSlots, Owns;
    assert Replace(DirSlots(v, d, chain), start, []) == DirSlots(v, d, chain);
    var w: seq<Event> := [];
    assert w[..0] == [];
  }

  lemma SlotsMore(v: Volume, d: Image, chain: seq<nat>, start: nat, news: seq<Slot>, raw: Slot, w: seq<Event>)
    requires v.Holds(d) && v.AllIn(chain) && Distinct(chain)
    requires SlotsLog(v, d, chain, start, news, w) && start + |news| < |DirSlots(v, d, chain)|
    ensures v.Holds(Replay(d, w)) && |DirSlots(v, Replay(d, w), chain)| == |DirSlots(v, d, chain)|
    ensures start + |news| < 16 * |ChainLbas(v, chain)|
    ensures SlotsLog(v, d, chain, start, news + [raw], w + [SlotPut(v, Replay(d, w), chain, start + |news|, raw)])
  {
    hide DirBecame, ChainLbas, SlotPut, Replay, SlotAt, Replace;
    var k, slots := |news|, DirSlots(v, d, chain);
    var e := Replay(d, w);
    assert w[..|w|] == w && news[..k] == news;
    BecameHolds(v, d, e, chain, Replace(slots, start, news));
    var put := SlotPut(v, e, chain, start + k, raw);
    SlotWritten(v, e, chain, start + k, raw);
    ReplaceMore(slots, start, news, raw);
    BecameThen(v, d, e, Apply(e, put), chain, Replace(slots, start, news), Replace(slots, start, news + [raw]));
    ReplayPut(d, w, put);
    forall m | 0 <= m <= |w| + 1
      ensures DirBecame(v, d, Replay(d, (w + [put])[..m]), chain, Replace(slots, start, (news + [raw])[..m]))
    {
      if m <= |w| {
        assert (w + [put])[..m] == w[..m] && (news + [raw])[..m] == news[..m];
      } else {
        assert (w + [put])[..m] == w + [put] && (news + [raw])[..m] == news + [raw];
      }
    }
  }

  lemma ReplaceMore(slots: seq<Slot>, start: nat, news: seq<Slot>, raw: Slot)
    requires start + |news| < |slots|
    ensures Replace(slots, start, news)[start + |news| := raw] == Replace(slots, start, news + [raw])
  {
  }

  lemma ReplayPut(d: Image, w: seq<Event>, e: Event)
    ensures Replay(d, w + [e]) == Apply(Replay(d, w), e)
  {
    assert (w + [e])[..|w|] == w;
  }

  lemma BecameHolds(v: Volume, d: Image, e: Image, chain: seq<nat>, slots: seq<Slot>)
    requires v.Holds(d) && DirBecame(v, d, e, chain, slots)
    ensures v.Holds(e) && DirSlots(v, e, chain) == slots
  {
    hide DirSlots, Owns;
  }

  /** Writes `news` into the slots from `start` on, one sector write a slot;
      stops, with an error, at the end of the directory. */
  method WriteSlots(v: Volume, disk: Disk, chain: seq<nat>, start: nat, news: seq<Slot>) returns (ok: bool,
      ghost w: seq<Event>)
    requires v.Holds(disk.sectors) && v.AllIn(chain) && Distinct(chain) && start <= |DirSlots(v, disk.sectors, chain)|
    modifies disk
    ensures Went(old(disk.sectors), old(disk.log), disk.sectors, disk.log, w)
    ensures ok <==> start + |news| <= |DirSlots(v, old(disk.sectors), chain)|
    ensures ok ==> SlotsLog(v, old(disk.sectors), chain, start, news, w)
    ensures !ok ==> var room := |DirSlots(v, old(disk.sectors), chain)| - start;
                    SlotsLog(v, old(disk.sectors), chain, start, news[..room], w)
  {
    hide SlotsLog, Replay, DirSlots, SlotPut, ChainLbas;
    ghost var d, log := disk.sectors, disk.log;
    ghost var total := |DirSlots(v, d, chain)|;
    WentNone(d, log);
    SlotsNone(v, d, chain, start);
    w := [];
    for i := 0 to |news|
      invariant start + i <= total
      invariant Went(d, log, disk.sectors, disk.log, w) && SlotsLog(v, d, chain, start, news[..i], w)
      invariant v.Holds(disk.sectors) && |DirSlots(v, disk.sectors, chain)| == total
    {
      ghost var mid, log1 := disk.sectors, disk.log;
      var raw := news[i];
      var written := PatchSlot(v, disk, chain, start + i, _ => raw);
      if !written {
        assert news[..total - start] == news[..i];
        return false, w;
      }
      SlotsMore(v, d, chain, start, news[..i], raw, w);
      ghost var put := SlotPut(v, mid, chain, start + i, raw);
      SlotsHold(v, d, chain, start, news[..i] + [raw], w + [put]);
      WentOn(d, log, mid, log1, w, disk.sectors, disk.log, [put]);
      w := w + [put];
      assert news[..i + 1] == news[..i] + [raw];
    }
    assert news[..|news|] == news;
    ok := true;
  }

  lemma SlotsHold(v: Volume, d: Image, chain: seq<nat>, start: nat, news: seq<Slot>, w: seq<Event>)
    requires v.Holds(d) && SlotsLog(v, d, chain, start, news, w)
    ensures v.Holds(Replay(d, w)) && |DirSlots(v, Replay(d, w), chain)| == |DirSlots(v, d, chain)|
    ensures SameHead(v, d, Replay(d, w))
    ensures DirBecame(v, d, Replay(d, w), chain, Replace(DirSlots(v, d, chain), start, news))
  {
    hide DirSlots, Agree, Replay;
    assert w[..|w|] == w && news[..|news|] == news;
    assert DirBecame(v, d, Replay(d, w[..|w|]), chain, Replace(DirSlots(v, d, chain), start, news[..|news|]));
  }

  /** The writes of a new entry: all its slots into a free run of the
      directory on `chain`, or as many as the directory had room for. */
  ghost predicate PutsEntry(v: Volume, d: Image, chain: seq<nat>, start: nat, run: nat, news: seq<Slot>, w: seq<Event>,
      ok: bool)
    requires v.Holds(d)
  {
    && FreeRun(DirSlots(v, d, chain), start, run) && 0 < run
    && (if ok then |news| <= run && SlotsLog(v, d, chain, start, news, w)
        else run < |news| && start + run == |DirSlots(v, d, chain)| && SlotsLog(v, d, chain, start, news[..run], w))
  }

  /** The new entry and what it leads to. */
  datatype Addition = Addition(name: Name, short: Short, taken: set<seq<byte>>, attr: byte, cluster: nat, size: nat,
      stamp: Stamp)
  {
    ghost predicate Ok() {
      && Permitted(name) && NewAttr(attr) && ShortFor(name, taken) == Some(short) && ReadBack(name) == name
      && cluster < 0x1_0000_0000 && size < 0x1_0000_0000
    }

    ghost function Slots(): seq<Slot>
      requires Ok()
    {
      EntrySlots(name, short, attr, cluster, size, stamp)
    }

    function Entry(): Entry {
      FatData.Entry.Entry(cluster, size, attr == ATTR_DIRECTORY)
    }
  }

  /** Stopped before its last write, or out of room, a new entry is not there. */
  lemma PartialSlots(v: Volume, d: Image, chain: seq<nat>, start: nat, run: nat, add: Addition, w: seq<Event>, m: nat)
    requires v.Holds(d) && add.Ok() && Tidy(DirSlots(v, d, chain)) && FreeRun(DirSlots(v, d, chain), start, run)
    requires 0 < run
    requires m < |add.Slots()| && m <= run && (m < run || start + run == |DirSlots(v, d, chain)|)
    requires m <= |w|
    requires DirBecame(v, d, Replay(d, w[..m]), chain, Replace(DirSlots(v, d, chain), start, add.Slots()[..m]))
    ensures exists slots :: DirBecame(v, d, Replay(d, w[..m]), chain, slots) && Items(slots) == DirItems(v, d, chain)
  {
    hide DirBecame, DirSlots, Tidy, FreeRun, ShortFor, ReadBack, Replay, Items, EntrySlots;
    EntryPartial(DirSlots(v, d, chain), start, run, add.name, add.short, add.taken, add.attr, add.cluster, add.size,
        add.stamp, m);
  }

  /** The image after the last slot is a switch to the new entry. */
  lemma AddedSwitch(v: Volume, d: Image, t: Tree, dir: nat, start: nat, run: nat, add: Addition, w: seq<Event>)
    requires WellFormed(v, d, t) && v.Holds(d) && dir in t.dirs && dir in t.chains && add.Ok()
    requires Tidy(DirSlots(v, d, t.chains[dir])) && PutsEntry(v, d, t.chains[dir], start, run, add.Slots(), w, true)
    requires Lookup(v, ItemsIn(v, d, t, dir), add.name) == None
    ensures v.Holds(Replay(d, w)) && Tidy(DirSlots(v, Replay(d, w), t.chains[dir]))
    ensures exists at: nat ::
              at <= |ItemsIn(v, d, t, dir)| && Switch(v, d, Replay(d, w), t, dir, add.name, at, at, add.Entry())
  {
    hide DirSlots, Tidy, Agree, ShortFor, ReadBack, Replay, EntrySlots, EntriesOk, RefsUnique, ChainsOk, ScanTo,
      SwitchItems, SameHead, Lookup;
    var chain, slots, news := t.chains[dir], DirSlots(v, d, t.chains[dir]), add.Slots();
    SlotsHold(v, d, chain, start, news, w);
    AddSwitch(v, slots, start, run, add.name, add.short, add.taken, add.attr, add.cluster, add.size, add.stamp);
    var at := |ScanTo(slots, start).items|;
    SwitchAt(v, ItemsIn(v, d, t, dir), ItemsIn(v, Replay(d, w), t, dir), add.name, at, add.Entry());
    assert Switch(v, d, Replay(d, w), t, dir, add.name, at, at, add.Entry());
    NewsKinds(add.name, add.short, add.taken, add.attr, add.cluster, add.size, add.stamp);
    FillTidy(slots, start, run, news);
  }

  lemma SwitchAt(v: Volume, before: seq<Item>, after: seq<Item>, name: Name, at: nat, entry: Entry)
    requires SwitchItems(v, before, after, name, at, at, entry)
    ensures at <= |before|
  {
    hide Lookup;
  }

  /** Everything a new entry's writes read as, when there is room for it: at
      every stop the volume is whole and reads as before, or as before with the
      new entry; without enough room, as before. */
  lemma AddRuns(v: Volume, d: Image, t: Tree, dir: nat, parent: Path, start: nat, run: nat, add: Addition,
      w: seq<Event>, ok: bool, chain: seq<nat>, node: Node)
    requires WellFormed(v, d, t) && v.Holds(d) && dir in t.dirs && dir in t.chains && LeadsTo(v, d, parent, dir)
    requires add.Ok()
    requires Tidy(DirSlots(v, d, t.chains[dir])) && PutsEntry(v, d, t.chains[dir], start, run, add.Slots(), w, ok)
    requires Lookup(v, ItemsIn(v, d, t, dir), add.name) == None
    requires NewChain(v, d, t, add.cluster, chain) && NewEntry(v, d, add.Entry(), chain)
    requires NodeAt(v, d, Some(add.Entry())) == Some(node)
    ensures Atomic(v, d, d, w, parent + [add.name], node)
    ensures v.Holds(Replay(d, w)) && SameHead(v, d, Replay(d, w))
    ensures ok ==> ReadsWith(v, d, Replay(d, w), parent + [add.name], node)
                   && WellFormed(v, Replay(d, w), Stepped(t, 0, add.cluster, chain, add.Entry().directory))
                   && Tidy(DirSlots(v, Replay(d, w), t.chains[dir]))
    ensures !ok ==> Reads(v, d, Replay(d, w))
  {
    hide WellFormed, DirSlots, Tidy, FreeRun, Replay, NewChain, NewEntry, NodeAt, Contents, LeadsTo, Lookup, DirBecame,
      Switch, Items, EntrySlots,
         ReadBack, ShortFor, Permitted, Stepped;
    var home := t.chains[dir];
    if ok {
      SlotsHold(v, d, home, start, add.Slots(), w);
      AddedSwitch(v, d, t, dir, start, run, add, w);
      var at: nat :| at <= |ItemsIn(v, d, t, dir)| && Switch(v, d, Replay(d, w), t, dir, add.name, at, at, add.Entry());
      forall m | 0 <= m < |w|
        ensures exists slots :: DirBecame(v, d, Replay(d, w[..m]), home, slots) && Items(slots) == ItemsIn(v, d, t, dir)
      {
        PartialSlots(v, d, home, start, run, add, w, m);
      }
      SwitchedAtomic(v, d, t, dir, parent, add.name, w, at, at, add.Entry(), chain, node);
    } else {
      SlotsHold(v, d, home, start, add.Slots()[..run], w);
      forall m | 0 <= m <= |w|
        ensures Reads(v, d, Replay(d, w[..m]))
      {
        assert add.Slots()[..run][..m] == add.Slots()[..m];
        PartialSlots(v, d, home, start, run, add, w, m);
        var slots :| DirBecame(v, d, Replay(d, w[..m]), home, slots) && Items(slots) == DirItems(v, d, home);
        SameItems(v, d, Replay(d, w[..m]), t, dir, home, slots);
        WholeBy(v, Replay(d, w[..m]), t);
      }
      assert w[..|w|] == w;
    }
  }
}
