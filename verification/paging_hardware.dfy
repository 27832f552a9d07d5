/** How a processor with four-level paging reads the tables, bit by bit of the
    address and of the entries; it finds what `Translate` says. */
module PagingHardware {
  import opened Base
  import opened PhysicalMemory
  import opened Paging

  /** 2 to the power 12 + 9 * `level`: what one entry of a table covers. */
  function Reach(level: nat): (r: nat)
    ensures r > 0
  {
    if level == 0 then 0x1000 else 0x200 * Reach(level - 1)
  }

  /** The word at a physical address. */
  function ReadAt(ram: seq<word>, at: nat): word {
    if at / 8 < |ram| then ram[at / 8] else 0
  }

  /** Nine bits of the address choose an entry of eight bytes; bit 0 says that it
      is there, bit 7 above the last level that it maps memory itself, and bits
      12 to 51 are the address of the next table. */
  function Processor(ram: seq<word>, table: nat, virt: nat, level: nat): Option<Mapping>
    decreases level
  {
    var entry := ReadAt(ram, table + 8 * (virt / Reach(level) % 0x200));
    if entry % 0x2 == 0 then None
    else if level == 0 || entry % 0x100 >= 0x80 then Some(Mapping(level, entry))
    else Processor(ram, entry % 0x10_0000_0000_0000 - entry % 0x1000, virt, level - 1)
  }

  lemma Reaches()
    ensures Reach(0) == 0x1000 && Reach(1) == 0x20_0000 && Reach(2) == 0x4000_0000 && Reach(3) == 0x80_0000_0000
  {
    assert Reach(1) == 0x200 * Reach(0);
    assert Reach(2) == 0x200 * Reach(1);
    assert Reach(3) == 0x200 * Reach(2);
  }

  /** Index `k` of an address is what the processor takes at level 3 - `k`. */
  lemma IndexIs(virt: nat, k: nat)
    requires k <= 3
    ensures Indices(virt)[k] == virt / Reach(3 - k) % 0x200
  {
    Reaches();
  }

  lemma EntryBits(v: word)
    ensures Present(v) <==> v % 0x2 != 0
    ensures Huge(v) <==> v % 0x100 >= 0x80
    ensures Address(v) == v % 0x10_0000_0000_0000 - v % 0x1000
  {
    hide Present, Huge, Address;
    HugeBit(v);
    AddressIs(v);
    assert Present(v) == (v % 2 == 1) by {
      PresentBit(v);
    }
  }

  lemma PresentBit(v: word)
    ensures Present(v) == (v % 2 == 1)
  {
  }

  lemma HugeBit(v: word)
    ensures Huge(v) <==> v % 0x100 >= 0x80
  {
    var q, r := v / 0x80, v % 0x80;
    var h, b := q / 2, q % 2;
    assert v == 0x100 * h + (0x80 * b + r);
  }

  lemma AddressIs(v: word)
    ensures Address(v) == v % 0x10_0000_0000_0000 - v % 0x1000
  {
    var a, b := v / 0x1000, v % 0x1000;
    assert v == 0x1000 * a + b;
    AddressBits(a, b);
  }

  lemma AddressBits(a: nat, b: nat)
    requires b < 0x1000
    ensures (0x1000 * a + b) % 0x10_0000_0000_0000 == 0x1000 * (a % 0x100_0000_0000) + b
  {
    var q, r := a / 0x100_0000_0000, a % 0x100_0000_0000;
    assert 0x1000 * a + b == 0x10_0000_0000_0000 * q + (0x1000 * r + b);
  }

  /** The word of entry `i` of a table. */
  lemma EntryAt(ram: seq<word>, table: nat, i: nat)
    requires table % 0x1000 == 0
    ensures At(ram, table, i) == ReadAt(ram, table + 8 * i)
  {
    assert (table + 8 * i) / 8 == table / 8 + i;
  }

  lemma {:induction false} WalkIs(ram: seq<word>, root: nat, virt: nat, k: nat)
    requires k <= 3 && root % 0x1000 == 0 && TableOf(ram, root, Indices(virt)[..k]).Some?
    ensures Walk(ram, root, Indices(virt), k)
         == Processor(ram, TableOf(ram, root, Indices(virt)[..k]).value, virt, 3 - k)
    decreases 3 - k
  {
    hide TableOf, Indices, Present, Huge, Address, At, ReadAt, Reach;
    var page := Indices(virt);
    var table := TableOf(ram, root, page[..k]).value;
    TableAligned(ram, root, page, k);
    IndexIs(virt, k);
    EntryAt(ram, table, page[k]);
    var v := At(ram, table, page[k]);
    EntryBits(v);
    if Present(v) && k < 3 && !Huge(v) {
      NextTable(ram, root, page, k);
      WalkIs(ram, root, virt, k + 1);
    }
  }

  lemma TableAligned(ram: seq<word>, root: nat, page: seq<nat>, k: nat)
    requires IsPage(page) && k <= 3 && root % 0x1000 == 0 && TableOf(ram, root, page[..k]).Some?
    ensures TableOf(ram, root, page[..k]).value % 0x1000 == 0
  {
    if k > 0 {
      assert page[..k][..k - 1] == page[..k - 1];
    }
  }

  /** What the tables say of an address is what the processor finds. */
  lemma ProcessorFinds(ram: seq<word>, root: nat, virt: nat)
    requires root % 0x1000 == 0
    ensures Translate(ram, root, Indices(virt)) == Processor(ram, root, virt, 3)
  {
    hide Walk, Processor;
    assert Indices(virt)[..0] == [];
    WalkIs(ram, root, virt, 0);
  }

  /** An address is its four indices, highest first, and its place in the page. */
  lemma AddressBack(virt: nat)
    ensures var i := Indices(virt);
            virt / 0x1000 % 0x10_0000_0000 == ((i[0] * 0x200 + i[1]) * 0x200 + i[2]) * 0x200 + i[3]
  {
    Digits(virt / 0x1000);
    Divided(virt);
  }

  /** A page of memory is present and writable; one of a device is written through
      and not cached, too. */
  lemma MadeBits(frame: nat)
    requires frame < ADDRESSES
    ensures Made(frame, 0) == frame + 0x01 + 0x02
    ensures Made(frame, DEVICE) == frame + 0x01 + 0x02 + 0x08 + 0x10
  {
  }

  /** A page mapped, as the processor sees it: it finds the frame, and everywhere
      else what it found before. */
  method MapSeen(frames: Frames, root: nat, virt: nat, frame: nat, ghost other: nat) returns (r: Result)
    requires Ready(frames, root) && root % FRAME == 0 && frame % FRAME == 0 && frame < ADDRESSES
    modifies frames`head, frames`free, frames`list, frames.ram
    ensures r == Done ==> Processor(frames.ram[..], root, virt, 3) == Some(Mapping(0, frame + 3))
    ensures r != Done || other / 0x1000 % 0x10_0000_0000 != virt / 0x1000 % 0x10_0000_0000 ==>
              Processor(frames.ram[..], root, other, 3) == old(Processor(frames.ram[..], root, other, 3))
  {
    hide Translate, Made, Frames.Valid, Tree, Paging.Apart, Indices, Processor;
    ProcessorFinds(frames.ram[..], root, virt);
    ProcessorFinds(frames.ram[..], root, other);
    r := Map(frames, root, virt, frame);
    ProcessorFinds(frames.ram[..], root, virt);
    ProcessorFinds(frames.ram[..], root, other);
    MadeBits(frame);
    SamePage(virt, other);
  }
}
