/** The frame allocator: its free frames are a stack threaded through the
    frames themselves. Physical memory is an array of 64-bit words. */
module PhysicalMemory {
  import opened Base

  type word = x: int | 0 <= x < 0x1_0000_0000_0000_0000

  const FRAME: nat := 4096
  const WORDS: nat := 512
  /** Physical addresses have 52 bits. */
  const MOST: nat := 0x2_0000_0000_0000

  /** An entry of the map the loader hands over. */
  datatype Region = Region(base: nat, length: nat, usable: bool)

  /** A frame of `n` words of memory, other than frame 0. */
  predicate IsFrame(frame: nat, n: nat) {
    frame > 0 && frame % FRAME == 0 && frame / 8 + WORDS <= n
  }

  /** Frames hold different words. */
  lemma Apart(a: nat, b: nat)
    requires a % FRAME == 0 && b % FRAME == 0 && a != b
    ensures a / 8 + WORDS <= b / 8 || b / 8 + WORDS <= a / 8
  {
  }

  ghost predicate Distinct(list: seq<nat>) {
    forall i, j | 0 <= i < j < |list| :: list[i] != list[j]
  }

  /** The free list in memory, from `head` on: each frame starts with the
      address of the next one, the last with 0. */
  ghost predicate Linked(ram: seq<word>, head: nat, list: seq<nat>)
    decreases |list|
  {
    if list == [] then head == 0
    else head == list[0] && IsFrame(head, |ram|) && Linked(ram, ram[head / 8], list[1..])
  }

  /** Memory has one list at most: following it ends, and always the same way. */
  lemma {:induction false} OneList(ram: seq<word>, head: nat, a: seq<nat>, b: seq<nat>)
    requires Linked(ram, head, a) && Linked(ram, head, b)
    ensures a == b
    decreases |a|
  {
    if a != [] {
      OneList(ram, ram[head / 8], a[1..], b[1..]);
      assert a == [a[0]] + a[1..] && b == [b[0]] + b[1..];
    }
  }

  lemma {:induction false} LinkedFrames(ram: seq<word>, head: nat, list: seq<nat>)
    requires Linked(ram, head, list)
    ensures forall f | f in list :: IsFrame(f, |ram|)
    decreases |list|
  {
    if list != [] {
      LinkedFrames(ram, ram[head / 8], list[1..]);
    }
  }

  /** A list never comes back to a frame: it would not end. */
  lemma {:induction false} NoCycle(ram: seq<word>, head: nat, list: seq<nat>)
    requires Linked(ram, head, list)
    ensures Distinct(list)
    decreases |list|
  {
    if list != [] {
      NoCycle(ram, ram[head / 8], list[1..]);
      if list[0] in list[1..] {
        var k :| 0 <= k < |list[1..]| && list[1..][k] == list[0];
        LinkedFrom(ram, ram[head / 8], list[1..], k);
        OneList(ram, head, list, list[1..][k..]);
      }
    }
  }

  lemma {:induction false} LinkedFrom(ram: seq<word>, head: nat, list: seq<nat>, k: nat)
    requires Linked(ram, head, list) && k < |list|
    ensures Linked(ram, list[k], list[k..])
    decreases |list|
  {
    if k > 0 {
      LinkedFrom(ram, ram[head / 8], list[1..], k - 1);
      assert list[1..][k - 1..] == list[k..];
    } else {
      assert list[0..] == list;
    }
  }

  /** Changes outside the first words of its frames leave a list as it is. */
  lemma {:induction false} LinkedKept(ram: seq<word>, after: seq<word>, head: nat, list: seq<nat>)
    requires Linked(ram, head, list) && |after| == |ram|
    requires forall f | f in list :: f / 8 < |ram| ==> after[f / 8] == ram[f / 8]
    ensures Linked(after, head, list)
    decreases |list|
  {
    if list != [] {
      assert list[0] in list;
      LinkedKept(ram, after, ram[head / 8], list[1..]);
    }
  }

  lemma LinkedPush(ram: seq<word>, frame: nat, list: seq<nat>)
    requires IsFrame(frame, |ram|) && Linked(ram, ram[frame / 8], list)
    ensures Linked(ram, frame, [frame] + list)
  {
    assert ([frame] + list)[1..] == list;
  }

  lemma LinkedNone(ram: seq<word>)
    ensures Linked(ram, 0, [])
  {
  }

  lemma FrameOf(f: nat, n: nat)
    requires f % FRAME == 0 && f != 0 && f + FRAME <= 8 * n
    ensures IsFrame(f, n)
  {
  }

  lemma LinkedHead(ram: seq<word>, head: nat, list: seq<nat>)
    requires Linked(ram, head, list)
    ensures head == 0 <==> list == []
    ensures list != [] ==> head == list[0] && IsFrame(head, |ram|) && Linked(ram, ram[head / 8], list[1..])
  {
  }

  // ---- Which frames are free at the start -------------------------------------------------------

  /** A whole frame of one of the usable regions. */
  ghost predicate Usable(regions: seq<Region>, f: nat) {
    exists i :: 0 <= i < |regions| && Holds(regions[i], f)
  }

  /** A frame the allocator may have: not frame 0, not one to keep. */
  predicate Wanted(f: nat, keep: (nat, nat)) {
    f % FRAME == 0 && f != 0 && !(keep.0 <= f < keep.1)
  }

  predicate Holds(r: Region, f: nat) {
    r.usable && r.base <= f && f + FRAME <= r.base + r.length
  }

  /** Usable regions are memory, and no two of them overlap. */
  ghost predicate Sane(regions: seq<Region>, n: nat) {
    && (forall i | 0 <= i < |regions| && regions[i].usable :: regions[i].base + regions[i].length <= 8 * n)
    && (forall i, j | 0 <= i < j < |regions| && regions[i].usable && regions[j].usable ::
          regions[i].base + regions[i].length <= regions[j].base
              || regions[j].base + regions[j].length <= regions[i].base)
  }

  function Up(x: nat): nat {
    (x + FRAME - 1) / FRAME * FRAME
  }

  function Down(x: nat): nat {
    x / FRAME * FRAME
  }

  /** The frames from the rounded start to the rounded end are the whole ones. */
  lemma Rounded(r: Region, f: nat)
    requires r.usable && f % FRAME == 0
    ensures Holds(r, f) <==> Up(r.base) <= f < Down(r.base + r.length)
    ensures Up(r.base) % FRAME == 0 && Down(r.base + r.length) % FRAME == 0
  {
  }

  lemma Stepped(f: nat, g: nat)
    requires f % FRAME == 0 && g % FRAME == 0
    ensures g < f + FRAME <==> g <= f
    ensures (f + FRAME) % FRAME == 0
  {
  }

  lemma UsableMore(regions: seq<Region>, i: nat, f: nat)
    requires i < |regions|
    ensures Usable(regions[..i + 1], f) <==> Usable(regions[..i], f) || Holds(regions[i], f)
  {
    if Usable(regions[..i], f) {
      var k :| 0 <= k < i && Holds(regions[..i][k], f);
      assert regions[..i + 1][k] == regions[..i][k];
    }
    assert regions[..i + 1][i] == regions[i];
    if Usable(regions[..i + 1], f) {
      var k :| 0 <= k < i + 1 && Holds(regions[..i + 1][k], f);
      assert k < i ==> regions[..i][k] == regions[..i + 1][k];
    }
  }

  lemma NotBefore(regions: seq<Region>, n: nat, i: nat, f: nat)
    requires Sane(regions, n) && i < |regions| && Holds(regions[i], f)
    ensures !Usable(regions[..i], f) && f + FRAME <= 8 * n
  {
    assert regions[i].usable;
  }

  // ---- The allocator ----------------------------------------------------------------------------

  class Frames {
    const ram: array<word>
    var head: word
    var free: nat
    var total: nat
    /** The free frames, next one first. */
    ghost var list: seq<nat>

    ghost predicate Valid()
      reads this, ram
    {
      ram.Length <= MOST && Linked(ram[..], head, list) && free == |list|
    }

    /** Every usable frame but frame 0 and those in `keep`. */
    constructor (memory: array<word>, regions: seq<Region>, keep: (nat, nat))
      requires memory.Length <= MOST && Sane(regions, memory.Length)
      modifies memory
      ensures Valid() && ram == memory && total == free == |list| && Distinct(list)
      ensures forall f: nat :: f in list <==> Wanted(f, keep) && Usable(regions, f)
    {
      ram := memory;
      head, free, total := 0, 0, 0;
      list := [];
      new;
      hide Linked, Usable, Sane, Wanted;
      LinkedNone(ram[..]);
      for i := 0 to |regions|
        invariant Valid() && ram == memory
        invariant forall f: nat :: f in list <==> Wanted(f, keep) && Usable(regions[..i], f)
      {
        if regions[i].usable {
          AddRegion(regions, i, keep);
        }
        forall f: nat
          ensures Usable(regions[..i + 1], f) <==> Usable(regions[..i], f) || Holds(regions[i], f)
        {
          UsableMore(regions, i, f);
        }
      }
      assert regions[..|regions|] == regions;
      total := free;
      NoCycle(ram[..], head, list);
    }

    /** The frames of one region. */
    method AddRegion(regions: seq<Region>, i: nat, keep: (nat, nat))
      requires Valid() && Sane(regions, ram.Length) && i < |regions| && regions[i].usable
      requires forall f: nat :: f in list <==> Wanted(f, keep) && Usable(regions[..i], f)
      modifies this`head, this`free, this`list, ram
      ensures Valid()
      ensures forall f: nat :: f in list <==> Wanted(f, keep) && (Usable(regions[..i], f) || Holds(regions[i], f))
    {
      hide Linked, Usable, Sane, Holds, Up, Down;
      ghost var before := list;
      var start, end := Up(regions[i].base), Down(regions[i].base + regions[i].length);
      forall f: nat | f % FRAME == 0
        ensures Holds(regions[i], f) <==> start <= f < end
      {
        Rounded(regions[i], f);
      }
      Rounded(regions[i], 0);
      var frame := start;
      while frame < end
        invariant Valid() && frame % FRAME == 0 && start <= frame
        invariant forall f: nat :: f in list <==> f in before || (Wanted(f, keep) && start <= f < frame && f < end)
      {
        if frame != 0 && !(keep.0 <= frame < keep.1) {
          NotBefore(regions, ram.Length, i, frame);
          FrameOf(frame, ram.Length);
          Push(frame);
        }
        forall f: nat | Wanted(f, keep)
          ensures f < frame + FRAME <==> f <= frame
        {
          Stepped(frame, f);
        }
        frame := frame + FRAME;
      }
    }

    /** The frame goes on the list. */
    method Push(frame: nat)
      requires Valid() && IsFrame(frame, ram.Length) && frame !in list
      modifies this`head, this`free, this`list, ram
      ensures Valid() && list == [frame] + old(list)
      ensures forall i | 0 <= i < ram.Length && i != frame / 8 :: ram[i] == old(ram[i])
    {
      hide Linked;
      ghost var before, from := ram[..], head;
      LinkedFrames(before, from, list);
      ram[frame / 8] := head;
      head := frame;
      free := free + 1;
      forall f | f in list
        ensures ram[f / 8] == before[f / 8]
      {
        Apart(f, frame);
      }
      LinkedKept(before, ram[..], from, list);
      LinkedPush(ram[..], frame, list);
      list := [frame] + list;
    }

    /** The top of the free list, wiped, and nothing outside it touched; None exactly
        when the list is empty. */
    method Allocate() returns (r: Option<nat>)
      requires Valid()
      modifies this`head, this`free, this`list, ram
      ensures Valid()
      ensures old(list) == [] ==> r == None && list == [] && ram[..] == old(ram[..])
      ensures old(list) != [] ==> r == Some(old(list)[0]) && list == old(list)[1..]
      ensures r.Some? ==> IsFrame(r.value, ram.Length) && r.value !in list
      ensures r.Some? ==> forall i | r.value / 8 <= i < r.value / 8 + WORDS :: ram[i] == 0
      ensures r.Some? ==>
                forall i | 0 <= i < ram.Length && !(r.value / 8 <= i < r.value / 8 + WORDS) :: ram[i] == old(ram[i])
    {
      hide Linked;
      LinkedHead(ram[..], head, list);
      if head == 0 {
        return None;
      }
      var frame := head;
      NoCycle(ram[..], head, list);
      LinkedFrames(ram[..], head, list);
      ghost var before := ram[..];
      ghost var all := list;
      head := ram[frame / 8];
      list := list[1..];
      assert forall k | 0 <= k < |list| :: list[k] == all[k + 1] && all[k + 1] != all[0];
      Zero(frame);
      forall f | f in list
        ensures f / 8 < ram.Length ==> ram[f / 8] == before[f / 8]
      {
        assert f in all;
        Apart(f, frame);
      }
      LinkedKept(before, ram[..], head, list);
      free := free - 1;
      r := Some(frame);
    }

    method Zero(frame: nat)
      requires IsFrame(frame, ram.Length)
      modifies ram
      ensures forall i | frame / 8 <= i < frame / 8 + WORDS :: ram[i] == 0
      ensures forall i | 0 <= i < ram.Length && !(frame / 8 <= i < frame / 8 + WORDS) :: ram[i] == old(ram[i])
    {
      var at := frame / 8;
      for k := 0 to WORDS
        invariant forall i | at <= i < at + k :: ram[i] == 0
        invariant forall i | 0 <= i < ram.Length && !(at <= i < at + k) :: ram[i] == old(ram[i])
      {
        ram[at + k] := 0;
      }
    }

    /** Writes a word that is not in a free frame. */
    method Write(w: nat, value: word)
      requires Valid() && w < ram.Length
      requires forall f | f in list :: !(f / 8 <= w < f / 8 + WORDS)
      modifies ram
      ensures Valid() && ram[..] == old(ram[..])[w := value]
    {
      hide Linked;
      ghost var before := ram[..];
      LinkedFrames(before, head, list);
      ram[w] := value;
      LinkedKept(before, ram[..], head, list);
    }

    /** Gives back a frame. */
    method Deallocate(frame: nat)
      requires Valid() && IsFrame(frame, ram.Length) && frame !in list
      modifies this`head, this`free, this`list, ram
      ensures Valid() && list == [frame] + old(list)
      ensures forall i | 0 <= i < ram.Length && i != frame / 8 :: ram[i] == old(ram[i])
    {
      Push(frame);
    }
  }

  /** What `Allocate` gave out, given back, is what it gives out next. */
  method Returned(frames: Frames) returns (first: Option<nat>, second: Option<nat>)
    requires frames.Valid()
    modifies frames, frames.ram
    ensures frames.Valid() && first == second
    ensures old(frames.list) == [] ==> first == None && frames.list == []
    ensures old(frames.list) != [] ==> first == Some(old(frames.list)[0]) && frames.list == old(frames.list)[1..]
  {
    first := frames.Allocate();
    if first.Some? {
      frames.Deallocate(first.value);
    }
    second := frames.Allocate();
  }
}
