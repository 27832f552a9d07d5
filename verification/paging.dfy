/** Four-level page tables in physical memory. What they say is a map from
    pages to entries, and `Put` adds one page to it. */
module Paging {
  import opened Base
  import opened PhysicalMemory

  /** Below every page a level takes nine more bits of the address. */
  const ENTRIES: nat := 512
  const PRESENT_WRITABLE: nat := 3
  const DEVICE: nat := 0x18
  const ADDRESSES: nat := 0x10_0000_0000_0000

  datatype Result = Done | NoFrame | HugePage | AlreadyMapped

  /** What the tables say of a page: its last entry, and at what level it is. */
  datatype Mapping = Mapping(level: nat, entry: word)

  // ---- Entries ----------------------------------------------------------------------------------

  predicate Present(v: word) {
    v % 2 == 1
  }

  predicate Huge(v: word) {
    v / 128 % 2 == 1
  }

  /** Bits 12 to 51. */
  function Address(v: word): (r: nat)
    ensures r % FRAME == 0
  {
    v / 4096 % 0x100_0000_0000 * 4096
  }

  /** The other bits. */
  function Flags(v: word): int {
    v - Address(v)
  }

  /** An entry for a frame, present and writable. */
  function Made(frame: nat, extra: nat): (r: word)
    requires frame < ADDRESSES && extra <= DEVICE
  {
    frame + PRESENT_WRITABLE + extra
  }

  lemma MadeIs(frame: nat, extra: nat)
    requires frame < ADDRESSES && frame % FRAME == 0 && extra in {0, DEVICE}
    ensures Present(Made(frame, extra)) && !Huge(Made(frame, extra)) && Address(Made(frame, extra)) == frame
    ensures Flags(Made(frame, extra)) == PRESENT_WRITABLE + extra
  {
    var k := frame / 4096;
    assert Made(frame, extra) == 4096 * k + (PRESENT_WRITABLE + extra);
    assert Made(frame, extra) / 4096 == k;
    assert Made(frame, extra) / 128 == 32 * k;
  }

  // ---- Addresses --------------------------------------------------------------------------------

  /** The indices of a virtual address in the four tables, top one first. */
  function Indices(virt: nat): (r: seq<nat>)
    ensures IsPage(r)
  {
    [virt / 0x80_0000_0000 % ENTRIES, virt / 0x4000_0000 % ENTRIES, virt / 0x20_0000 % ENTRIES, virt / 0x1000 % ENTRIES]
  }

  predicate IsPage(page: seq<nat>) {
    |page| == 4 && forall i | 0 <= i < 4 :: page[i] < ENTRIES
  }

  /** Addresses have the same indices exactly when they are in the same page, the
      bits above the 48 that are used aside. */
  lemma SamePage(a: nat, b: nat)
    ensures Indices(a) == Indices(b) <==> a / 0x1000 % 0x10_0000_0000 == b / 0x1000 % 0x10_0000_0000
  {
    Digits(a / 0x1000);
    Digits(b / 0x1000);
    Divided(a);
    Divided(b);
    var i, j := Indices(a), Indices(b);
    assert i == j <==> i[0] == j[0] && i[1] == j[1] && i[2] == j[2] && i[3] == j[3];
  }

  lemma Divided(a: nat)
    ensures a / 0x80_0000_0000 == a / 0x1000 / 512 / 512 / 512 && a / 0x4000_0000 == a / 0x1000 / 512 / 512
    ensures a / 0x20_0000 == a / 0x1000 / 512
  {
  }

  lemma Digits(n: nat)
    ensures n % 0x10_0000_0000
            == n % 512 + 512 * (n / 512 % 512) + 0x4_0000 * (n / 512 / 512 % 512) + 0x800_0000 * (n / 512 / 512 / 512 % 512)
  {
  }

  // ---- Tables -----------------------------------------------------------------------------------

  /** Entry `i` of the table at `table`. */
  function At(ram: seq<word>, table: nat, i: nat): word {
    if table / 8 + i < |ram| then ram[table / 8 + i] else 0
  }

  /** The table some indices lead to. */
  function TableOf(ram: seq<word>, root: nat, path: seq<nat>): Option<nat> {
    if path == [] then Some(root)
    else
      match TableOf(ram, root, path[..|path| - 1])
      case None => None
      case Some(table) =>
        var v := At(ram, table, path[|path| - 1]);
        if Present(v) && !Huge(v) then Some(Address(v)) else None
  }

  /** What the tables say of a page, from the table of its first `k` indices on. */
  function Walk(ram: seq<word>, root: nat, page: seq<nat>, k: nat): Option<Mapping>
    requires IsPage(page) && k <= 3
    decreases 3 - k
  {
    match TableOf(ram, root, page[..k])
    case None => None
    case Some(table) =>
      var v := At(ram, table, page[k]);
      if !Present(v) then None
      else if k == 3 || Huge(v) then Some(Mapping(3 - k, v))
      else Walk(ram, root, page, k + 1)
  }

  function Translate(ram: seq<word>, root: nat, page: seq<nat>): Option<Mapping>
    requires IsPage(page)
  {
    Walk(ram, root, page, 0)
  }

  /** How many of the tables of a page are there, from table `k` on. */
  function Depth(ram: seq<word>, root: nat, page: seq<nat>, k: nat): (r: nat)
    requires IsPage(page) && k <= 3
    ensures k <= r <= 3
    decreases 3 - k
  {
    if k < 3 && TableOf(ram, root, page[..k + 1]).Some? then Depth(ram, root, page, k + 1) else k
  }

  /** The indices that lead to a table. */
  predicate IsPath(path: seq<nat>) {
    |path| <= 3 && forall i | 0 <= i < |path| :: path[i] < ENTRIES
  }

  predicate InRam(table: nat, n: nat) {
    table % FRAME == 0 && table / 8 + WORDS <= n
  }

  /** Every table is in memory, and only one way leads to it. */
  ghost predicate Tree(ram: seq<word>, root: nat) {
    && (forall p | IsPath(p) && TableOf(ram, root, p).Some? :: InRam(TableOf(ram, root, p).value, |ram|))
    && (forall p, q | IsPath(p) && IsPath(q) && TableOf(ram, root, p).Some?
        && TableOf(ram, root, p) == TableOf(ram, root, q) :: p == q)
  }

  /** No table is a free frame. */
  ghost predicate Apart(ram: seq<word>, root: nat, list: seq<nat>) {
    forall p | IsPath(p) && TableOf(ram, root, p).Some? :: TableOf(ram, root, p).value !in list
  }

  /** A root table of zeros is a tree, and maps nothing. */
  lemma EmptyTree(ram: seq<word>, root: nat)
    requires InRam(root, |ram|) && forall j: nat | j < ENTRIES :: At(ram, root, j) == 0
    ensures Tree(ram, root) && forall page | IsPage(page) :: Translate(ram, root, page) == None
  {
    hide At;
    forall p | IsPath(p) && p != []
      ensures TableOf(ram, root, p) == None
    {
      NoTable(ram, root, p);
    }
  }

  lemma {:induction false} NoTable(ram: seq<word>, root: nat, p: seq<nat>)
    requires IsPath(p) && p != [] && forall j: nat | j < ENTRIES :: At(ram, root, j) == 0
    ensures TableOf(ram, root, p) == None
    decreases |p|
  {
    hide At;
    if |p| > 1 {
      NoTable(ram, root, p[..|p| - 1]);
    }
  }

  // ---- One entry changed ------------------------------------------------------------------------

  /** No entry of a table differs but entry `i` of the table `p` leads to. */
  ghost predicate SameBut(ram: seq<word>, after: seq<word>, root: nat, p: seq<nat>, i: nat) {
    forall q, j: nat | IsPath(q) && TableOf(ram, root, q).Some? && j < ENTRIES && !(q == p && j == i) ::
      At(after, TableOf(ram, root, q).value, j) == At(ram, TableOf(ram, root, q).value, j)
  }

  lemma {:induction false} TableSame(ram: seq<word>, after: seq<word>, root: nat, p: seq<nat>, i: nat, q: seq<nat>)
    requires SameBut(ram, after, root, p, i) && IsPath(q) && !(p + [i] <= q)
    ensures TableOf(after, root, q) == TableOf(ram, root, q)
    decreases |q|
  {
    if q != [] {
      var n := |q| - 1;
      assert q == q[..n] + [q[n]];
      TableSame(ram, after, root, p, i, q[..n]);
    }
  }

  /** Pages that do not go through the changed entry. */
  lemma {:induction false} WalkSame(ram: seq<word>, after: seq<word>, root: nat, p: seq<nat>, i: nat, page: seq<nat>,
      k: nat)
    requires SameBut(ram, after, root, p, i) && |p| <= 3 && IsPage(page) && k <= 3 && !(p + [i] <= page)
    ensures Walk(after, root, page, k) == Walk(ram, root, page, k)
    decreases 3 - k
  {
    hide TableOf, At;
    TableSame(ram, after, root, p, i, page[..k]);
    if k == |p| {
      assert page[..k] == p ==> p + [i] == page[..k + 1] || page[k] != i;
    }
    if k < 3 {
      WalkSame(ram, after, root, p, i, page, k + 1);
    }
  }

  /** The tables that are there are the start of the walk. */
  lemma {:induction false} WalkFrom(ram: seq<word>, root: nat, page: seq<nat>, k: nat)
    requires IsPage(page) && k <= 3 && TableOf(ram, root, page[..k]).Some?
    ensures Translate(ram, root, page) == Walk(ram, root, page, k)
  {
    if k > 0 {
      assert page[..k][..k - 1] == page[..k - 1];
      WalkFrom(ram, root, page, k - 1);
    }
  }

  // ---- A table added ----------------------------------------------------------------------------

  /** A zeroed frame hung into an empty entry. */
  ghost predicate Hung(ram: seq<word>, after: seq<word>, root: nat, p: seq<nat>, i: nat, added: nat) {
    && IsPath(p) && |p| < 3 && i < ENTRIES && TableOf(ram, root, p).Some?
    && SameBut(ram, after, root, p, i)
    && !Present(At(ram, TableOf(ram, root, p).value, i))
    && Present(At(after, TableOf(ram, root, p).value, i)) && !Huge(At(after, TableOf(ram, root, p).value, i))
    && Address(At(after, TableOf(ram, root, p).value, i)) == added
    && (forall j: nat | j < ENTRIES :: At(after, added, j) == 0)
  }

  lemma {:induction false} HungTable(ram: seq<word>, after: seq<word>, root: nat, p: seq<nat>, i: nat, added: nat,
      q: seq<nat>)
    requires Hung(ram, after, root, p, i, added) && IsPath(q)
    ensures TableOf(after, root, q) == if q == p + [i] then Some(added) else TableOf(ram, root, q)
    ensures TableOf(ram, root, p + [i]) == None
    decreases |q|
  {
    assert (p + [i])[..|p|] == p;
    TableSame(ram, after, root, p, i, p);
    if p + [i] <= q && q != p + [i] {
      var n := |q| - 1;
      HungTable(ram, after, root, p, i, added, q[..n]);
      Below(ram, root, p + [i], q[..n]);
    } else if !(p + [i] <= q) {
      TableSame(ram, after, root, p, i, q);
    }
  }

  lemma {:induction false} Below(ram: seq<word>, root: nat, p: seq<nat>, q: seq<nat>)
    requires TableOf(ram, root, p) == None && p <= q
    ensures TableOf(ram, root, q) == None
  {
    if q != p {
      Below(ram, root, p, q[..|q| - 1]);
    } else {
      assert p == q;
    }
  }

  /** It changes no translation: the tables say no more than before. */
  lemma HungWalk(ram: seq<word>, after: seq<word>, root: nat, p: seq<nat>, i: nat, added: nat, page: seq<nat>)
    requires Hung(ram, after, root, p, i, added) && IsPage(page)
    ensures Translate(after, root, page) == Translate(ram, root, page)
  {
    hide TableOf, At, Huge, Present, Address;
    if p + [i] <= page {
      assert page[..|p|] == p && page[..|p| + 1] == p + [i] && page[|p|] == i;
      HungTable(ram, after, root, p, i, added, p);
      HungTable(ram, after, root, p, i, added, p + [i]);
      WalkFrom(ram, root, page, |p|);
      WalkFrom(after, root, page, |p| + 1);
      Absent();
    } else {
      WalkSame(ram, after, root, p, i, page, 0);
    }
  }

  lemma Absent()
    ensures !Present(0)
  {
  }

  lemma HungTree(ram: seq<word>, after: seq<word>, root: nat, p: seq<nat>, i: nat, added: nat, list: seq<nat>,
      rest: seq<nat>)
    requires Hung(ram, after, root, p, i, added) && Tree(ram, root) && Apart(ram, root, list) && |after| == |ram|
    requires InRam(added, |ram|) && list == [added] + rest && added !in rest
    ensures Tree(after, root) && Apart(after, root, rest)
  {
    hide TableOf, At, Huge, Present, Address, Hung, InRam;
    forall q | IsPath(q)
      ensures TableOf(after, root, q) == if q == p + [i] then Some(added) else TableOf(ram, root, q)
    {
      HungTable(ram, after, root, p, i, added, q);
    }
    assert added in list && forall f | f in rest :: f in list;
  }

  // ---- A page added -----------------------------------------------------------------------------

  lemma Filled(ram: seq<word>, after: seq<word>, root: nat, page: seq<nat>, v: word)
    requires IsPage(page) && TableOf(ram, root, page[..3]).Some? && |after| == |ram|
    requires SameBut(ram, after, root, page[..3], page[3])
    requires At(after, TableOf(ram, root, page[..3]).value, page[3]) == v && Present(v)
    ensures Translate(after, root, page) == Some(Mapping(0, v))
    ensures forall other | IsPage(other)
            && other != page :: Translate(after, root, other) == Translate(ram, root, other)
    ensures forall q | IsPath(q) :: TableOf(after, root, q) == TableOf(ram, root, q)
  {
    hide TableOf, At, Huge, Present;
    forall q | IsPath(q)
      ensures TableOf(after, root, q) == TableOf(ram, root, q)
    {
      TableSame(ram, after, root, page[..3], page[3], q);
    }
    assert IsPath(page[..3]) && page == page[..3] + [page[3]];
    WalkFrom(after, root, page, 3);
    forall other | IsPage(other) && other != page
      ensures Translate(after, root, other) == Translate(ram, root, other)
    {
      WalkSame(ram, after, root, page[..3], page[3], other, 0);
    }
  }

  /** Writing one entry of one table of a tree changes no other entry. */
  lemma OneEntry(ram: seq<word>, after: seq<word>, root: nat, p: seq<nat>, i: nat)
    requires Tree(ram, root) && IsPath(p) && TableOf(ram, root, p).Some? && i < ENTRIES && |after| == |ram|
    requires forall w | 0 <= w < |ram| && w != TableOf(ram, root, p).value / 8 + i :: after[w] == ram[w]
    ensures SameBut(ram, after, root, p, i)
  {
    hide TableOf;
    var t := TableOf(ram, root, p).value;
    forall q, j: nat | IsPath(q) && TableOf(ram, root, q).Some? && j < ENTRIES && !(q == p && j == i)
      ensures At(after, TableOf(ram, root, q).value, j) == At(ram, TableOf(ram, root, q).value, j)
    {
      var u := TableOf(ram, root, q).value;
      if u != t {
        PhysicalMemory.Apart(u, t);
      }
    }
  }

  /** The same, with a frame that is no table wiped as well. */
  lemma EntryAndFrame(ram: seq<word>, after: seq<word>, root: nat, p: seq<nat>, i: nat, frame: nat)
    requires Tree(ram, root) && IsPath(p) && TableOf(ram, root, p).Some? && i < ENTRIES && |after| == |ram|
    requires frame % FRAME == 0
    requires forall q | IsPath(q) && TableOf(ram, root, q).Some? :: TableOf(ram, root, q).value != frame
    requires forall w | 0 <= w < |ram| && w != TableOf(ram, root, p).value / 8 + i
             && !(frame / 8 <= w < frame / 8 + WORDS) :: after[w] == ram[w]
    ensures SameBut(ram, after, root, p, i)
  {
    hide TableOf;
    var t := TableOf(ram, root, p).value;
    forall q, j: nat | IsPath(q) && TableOf(ram, root, q).Some? && j < ENTRIES && !(q == p && j == i)
      ensures At(after, TableOf(ram, root, q).value, j) == At(ram, TableOf(ram, root, q).value, j)
    {
      var u := TableOf(ram, root, q).value;
      PhysicalMemory.Apart(u, frame);
      if u != t {
        PhysicalMemory.Apart(u, t);
      }
    }
  }

  // ---- The operations ---------------------------------------------------------------------------

  /** The page tables under `root` are a tree of frames that are not free. */
  ghost predicate Ready(frames: Frames, root: nat)
    reads frames, frames.ram
  {
    frames.Valid() && Tree(frames.ram[..], root) && Apart(frames.ram[..], root, frames.list)
  }

  /** What mapping a page may write: its own entries, and free frames. */
  ghost predicate MayChange(ram: seq<word>, root: nat, page: seq<nat>, list: seq<nat>, w: nat)
    requires IsPage(page)
  {
    || (exists f :: f in list && f / 8 <= w < f / 8 + WORDS)
    || (exists k ::
          0 <= k <= 3 && TableOf(ram, root, page[..k]).Some? && w == TableOf(ram, root, page[..k]).value / 8 + page[k])
  }

  /** A table for the first `k` + 1 indices of a page. */
  method AddTable(frames: Frames, ghost root: nat, page: seq<nat>, k: nat, table: nat) returns (r: Option<nat>)
    requires Ready(frames, root) && IsPage(page) && k < 3
    requires TableOf(frames.ram[..], root, page[..k]) == Some(table) && !Present(At(frames.ram[..], table, page[k]))
    modifies frames`head, frames`free, frames`list, frames.ram
    ensures Ready(frames, root)
    ensures old(frames.list) == [] ==> r == None && frames.list == [] && frames.ram[..] == old(frames.ram[..])
    ensures old(frames.list) != [] ==> r == Some(old(frames.list)[0]) && frames.list == old(frames.list)[1..]
    ensures r.Some? ==> Hung(old(frames.ram[..]), frames.ram[..], root, page[..k], page[k], r.value)
    ensures r.Some? ==>
      forall w | 0 <= w < frames.ram.Length && w != table / 8 + page[k] && !(r.value / 8 <= w < r.value / 8 + WORDS) ::
        frames.ram[w] == old(frames.ram[w])
  {
    hide TableOf, Linked, Huge, Present, Address, Made, Frames.Valid;
    ghost var before, list := frames.ram[..], frames.list;
    r := frames.Allocate();
    if r == None {
      return;
    }
    var added := r.value;
    assert list == [added] + frames.list;
    Bounded(frames);
    assert InRam(table, |before|) && table != added by {
      assert IsPath(page[..k]) && added in list;
    }
    PhysicalMemory.Apart(table, added);
    InUse(frames, table, list);
    frames.Write(table / 8 + page[k], Made(added, 0));
    MadeIs(added, 0);
    EntryAndFrame(before, frames.ram[..], root, page[..k], page[k], added);
    HungTree(before, frames.ram[..], root, page[..k], page[k], added, list, frames.list);
  }

  /** The words of a frame that is not free are in no free frame. */
  lemma InUse(frames: Frames, frame: nat, list: seq<nat>)
    requires frames.Valid() && frame % FRAME == 0 && frame !in list && forall f | f in frames.list :: f in list
    ensures forall f | f in frames.list :: f / 8 + WORDS <= frame / 8 || frame / 8 + WORDS <= f / 8
  {
    hide Linked;
    LinkedFrames(frames.ram[..], frames.head, frames.list);
    forall f | f in frames.list
      ensures f / 8 + WORDS <= frame / 8 || frame / 8 + WORDS <= f / 8
    {
      PhysicalMemory.Apart(f, frame);
    }
  }

  lemma Bounded(frames: Frames)
    requires frames.Valid()
    ensures 8 * frames.ram.Length <= ADDRESSES
  {
  }

  /** What `Put` answers, from what the tables say of the page. */
  function Answer(ram: seq<word>, root: nat, page: seq<nat>, frame: nat, again: bool, free: nat): Result
    requires IsPage(page)
  {
    match Translate(ram, root, page)
    case None => if free + Depth(ram, root, page, 0) >= 3 then Done else NoFrame
    case Some(m) =>
      if m.level > 0 then HugePage
      else if again && Address(m.entry) == frame then Done
      else AlreadyMapped
  }

  /** No translation differs, but that of `page`. */
  ghost predicate OthersKept(ram: seq<word>, after: seq<word>, root: nat, page: seq<nat>)
    requires IsPage(page)
  {
    forall other | IsPage(other) && other != page :: Translate(after, root, other) == Translate(ram, root, other)
  }

  /** Where the walk is after `k` tables, `made` of them new. */
  ghost predicate Walking(ram: seq<word>, now: seq<word>, root: nat, page: seq<nat>, k: nat, made: nat, list: seq<nat>,
      rest: seq<nat>)
    requires IsPage(page) && k <= 3
  {
    && TableOf(now, root, page[..k]).Some? && |now| == |ram|
    && made <= |list| && made <= k && rest == list[made..]
    && (made == 0 ==> now == ram)
    && (made > 0 ==> Translate(ram, root, page) == None && Depth(ram, root, page, 0) == k - made
                     && TableOf(now, root, page[..k]).value in list
                         && At(now, TableOf(now, root, page[..k]).value, page[k]) == 0)
    && (forall other | IsPage(other) :: Translate(now, root, other) == Translate(ram, root, other))
    && (forall w | 0 <= w < |ram| && !MayChange(ram, root, page, list, w) :: now[w] == ram[w])
  }

  lemma {:induction false} DepthFrom(ram: seq<word>, root: nat, page: seq<nat>, k: nat)
    requires IsPage(page) && k <= 3 && TableOf(ram, root, page[..k]).Some?
    ensures Depth(ram, root, page, 0) == Depth(ram, root, page, k)
  {
    if k > 0 {
      assert page[..k][..k - 1] == page[..k - 1];
      DepthFrom(ram, root, page, k - 1);
    }
  }

  /** An empty entry on the way: the page is not mapped. */
  lemma StopsAt(ram: seq<word>, root: nat, page: seq<nat>, k: nat)
    requires IsPage(page) && k < 3 && TableOf(ram, root, page[..k]).Some?
    requires !Present(At(ram, TableOf(ram, root, page[..k]).value, page[k]))
    ensures Translate(ram, root, page) == None && Depth(ram, root, page, 0) == k
  {
    WalkFrom(ram, root, page, k);
    DepthFrom(ram, root, page, k);
    assert page[..k + 1][..k] == page[..k];
  }

  lemma HugeAt(ram: seq<word>, root: nat, page: seq<nat>, k: nat)
    requires IsPage(page) && k < 3 && TableOf(ram, root, page[..k]).Some?
    requires var v := At(ram, TableOf(ram, root, page[..k]).value, page[k]); Present(v) && Huge(v)
    ensures Translate(ram, root, page) == Some(Mapping(3 - k, At(ram, TableOf(ram, root, page[..k]).value, page[k])))
  {
    WalkFrom(ram, root, page, k);
  }

  lemma NextTable(ram: seq<word>, root: nat, page: seq<nat>, k: nat)
    requires IsPage(page) && k < 3 && TableOf(ram, root, page[..k]).Some?
    requires var v := At(ram, TableOf(ram, root, page[..k]).value, page[k]); Present(v) && !Huge(v)
    ensures TableOf(ram, root, page[..k + 1]) == Some(Address(At(ram, TableOf(ram, root, page[..k]).value, page[k])))
  {
    assert page[..k + 1][..k] == page[..k];
  }

  lemma AddedTable(ram: seq<word>, was: seq<word>, now: seq<word>, root: nat, page: seq<nat>, k: nat, made: nat,
      list: seq<nat>, rest: seq<nat>)
    requires IsPage(page) && k < 3 && Walking(ram, was, root, page, k, made, list, rest) && rest != [] && |now| == |was|
    requires Hung(was, now, root, page[..k], page[k], rest[0])
    requires forall w | 0 <= w < |was| && w != TableOf(was, root, page[..k]).value / 8 + page[k]
             && !(rest[0] / 8 <= w < rest[0] / 8 + WORDS) ::
               now[w] == was[w]
    ensures Walking(ram, now, root, page, k + 1, made + 1, list, rest[1..])
    ensures TableOf(now, root, page[..k + 1]) == Some(rest[0])
  {
    hide TableOf, Translate, At, Huge, Present, Address, Depth;
    var table := TableOf(was, root, page[..k]).value;
    StopsAt(was, root, page, k);
    HungTable(was, now, root, page[..k], page[k], rest[0], page[..k] + [page[k]]);
    assert page[..k] + [page[k]] == page[..k + 1];
    assert rest[0] == list[made] && rest[0] in list && rest[1..] == list[made + 1..];
    forall other | IsPage(other)
      ensures Translate(now, root, other) == Translate(ram, root, other)
    {
      HungWalk(was, now, root, page[..k], page[k], rest[0], other);
    }
    Ours(ram, root, page, k, list, table, made);
  }

  /** The entries the walk writes are the page's own, or in frames that were free. */
  lemma Ours(ram: seq<word>, root: nat, page: seq<nat>, k: nat, list: seq<nat>, table: nat, made: nat)
    requires IsPage(page) && k <= 3
    requires (made == 0 ==> TableOf(ram, root, page[..k]) == Some(table)) && (made > 0 ==> table in list)
    ensures MayChange(ram, root, page, list, table / 8 + page[k])
  {
    hide TableOf;
    if made > 0 {
      assert table in list && table / 8 <= table / 8 + page[k] < table / 8 + WORDS;
    }
  }

  lemma Start(ram: seq<word>, root: nat, page: seq<nat>, list: seq<nat>)
    requires IsPage(page)
    ensures TableOf(ram, root, page[..0]) == Some(root) && Walking(ram, ram, root, page, 0, 0, list, list)
  {
  }

  lemma FreeIs(frames: Frames)
    requires frames.Valid()
    ensures frames.free == |frames.list| && 8 * frames.ram.Length <= ADDRESSES
  {
  }

  lemma TableFits(frames: Frames, root: nat, page: seq<nat>, k: nat)
    requires Ready(frames, root) && IsPage(page) && k <= 3 && TableOf(frames.ram[..], root, page[..k]).Some?
    ensures
      var table := TableOf(frames.ram[..], root, page[..k]).value;
      && InRam(table, frames.ram.Length) && table !in frames.list && table / 8 + page[k] < frames.ram.Length
      && frames.ram[table / 8 + page[k]] == At(frames.ram[..], table, page[k])
  {
    hide TableOf;
    assert IsPath(page[..k]);
  }

  /** Writes the last entry of a page that has none. */
  method Fill(frames: Frames, ghost root: nat, page: seq<nat>, table: nat, v: word)
    requires Ready(frames, root) && IsPage(page) && TableOf(frames.ram[..], root, page[..3]) == Some(table)
    requires Present(v)
    modifies frames.ram
    ensures Ready(frames, root) && Translate(frames.ram[..], root, page) == Some(Mapping(0, v))
    ensures OthersKept(old(frames.ram[..]), frames.ram[..], root, page)
    ensures forall w | 0 <= w < frames.ram.Length && w != table / 8 + page[3] :: frames.ram[w] == old(frames.ram[w])
  {
    hide TableOf, Translate, Huge, Present, Address, Frames.Valid;
    ghost var was := frames.ram[..];
    assert IsPath(page[..3]);
    TableFits(frames, root, page, 3);
    InUse(frames, table, frames.list);
    frames.Write(table / 8 + page[3], v);
    OneEntry(was, frames.ram[..], root, page[..3], page[3]);
    Filled(was, frames.ram[..], root, page, v);
  }

  /** Maps a page to a frame, with the tables it needs; with `again`, finding
      that frame there already is no error. */
  method Put(frames: Frames, root: nat, virt: nat, frame: nat, again: bool, extra: nat) returns (r: Result)
    requires Ready(frames, root) && root % FRAME == 0 && frame % FRAME == 0 && frame < ADDRESSES && extra in {0, DEVICE}
    modifies frames`head, frames`free, frames`list, frames.ram
    ensures Ready(frames, root)
    ensures r == Answer(old(frames.ram[..]), root, Indices(virt), frame, again, old(frames.free))
    ensures OthersKept(old(frames.ram[..]), frames.ram[..], root, Indices(virt))
    ensures Translate(frames.ram[..], root, Indices(virt)) ==
              if r == Done && Translate(old(frames.ram[..]), root, Indices(virt)) == None then Some(Mapping(0,
                  Made(frame, extra)))
              else Translate(old(frames.ram[..]), root, Indices(virt))
    ensures forall w | 0 <= w < frames.ram.Length
            && !MayChange(old(frames.ram[..]), root, Indices(virt), old(frames.list), w) ::
              frames.ram[w] == old(frames.ram[w])
  {
    hide TableOf, Translate, Huge, Present, Address, Depth, Frames.Valid, Tree, Apart, MayChange, Made, Indices;
    ghost var ram, list, made := frames.ram[..], frames.list, 0;
    var page := Indices(virt);
    var table := root;
    FreeIs(frames);
    Start(ram, root, page, list);
    for k := 0 to 3
      invariant Ready(frames, root) && Walking(ram, frames.ram[..], root, page, k, made, list, frames.list)
      invariant TableOf(frames.ram[..], root, page[..k]) == Some(table)
    {
      TableFits(frames, root, page, k);
      var value := frames.ram[table / 8 + page[k]];
      if !Present(value) {
        ghost var was, rest := frames.ram[..], frames.list;
        StopsAt(was, root, page, k);
        var added := AddTable(frames, root, page, k, table);
        if added == None {
          return NoFrame;
        }
        AddedTable(ram, was, frames.ram[..], root, page, k, made, list, rest);
        made := made + 1;
        table := added.value;
      } else if Huge(value) {
        HugeAt(frames.ram[..], root, page, k);
        return HugePage;
      } else {
        Absent();
        NextTable(frames.ram[..], root, page, k);
        table := Address(value);
      }
    }
    ghost var was := frames.ram[..];
    TableFits(frames, root, page, 3);
    WalkFrom(was, root, page, 3);
    WalkEnd(was, root, page);
    if made == 0 {
      DepthFrom(ram, root, page, 3);
      DepthEnd(ram, root, page);
    }
    var current := frames.ram[table / 8 + page[3]];
    if Present(current) {
      return if again && Address(current) == frame then Done else AlreadyMapped;
    }
    MadeIs(frame, extra);
    Fill(frames, root, page, table, Made(frame, extra));
    Ours(ram, root, page, 3, list, table, made);
    r := Done;
  }

  lemma WalkEnd(ram: seq<word>, root: nat, page: seq<nat>)
    requires IsPage(page) && TableOf(ram, root, page[..3]).Some?
    ensures
      var v := At(ram, TableOf(ram, root, page[..3]).value, page[3]);
      Walk(ram, root, page, 3) == if Present(v) then Some(Mapping(0, v)) else None
  {
  }

  lemma DepthEnd(ram: seq<word>, root: nat, page: seq<nat>)
    requires IsPage(page)
    ensures Depth(ram, root, page, 3) == 3
  {
  }

  /** A page of its own. */
  method Map(frames: Frames, root: nat, virt: nat, frame: nat) returns (r: Result)
    requires Ready(frames, root) && root % FRAME == 0 && frame % FRAME == 0 && frame < ADDRESSES
    modifies frames`head, frames`free, frames`list, frames.ram
    ensures Ready(frames, root) && OthersKept(old(frames.ram[..]), frames.ram[..], root, Indices(virt))
    ensures r == Answer(old(frames.ram[..]), root, Indices(virt), frame, false, old(frames.free))
    ensures r == Done ==> Translate(old(frames.ram[..]), root, Indices(virt)) == None
                          && Translate(frames.ram[..], root, Indices(virt)) == Some(Mapping(0, Made(frame, 0)))
    ensures r != Done ==>
              Translate(frames.ram[..], root, Indices(virt)) == Translate(old(frames.ram[..]), root, Indices(virt))
  {
    hide Translate, Made, Frames.Valid, Tree, Apart, MayChange, Indices, OthersKept;
    r := Put(frames, root, virt, frame, false, 0);
  }

  /** A device's registers. The processor does not cache them exactly when the
      page was not mapped before, or already so: a page that maps the same frame
      with other flags is accepted as it is. */
  method MapDevice(frames: Frames, root: nat, virt: nat, frame: nat) returns (r: Result)
    requires Ready(frames, root) && root % FRAME == 0 && frame % FRAME == 0 && frame < ADDRESSES
    modifies frames`head, frames`free, frames`list, frames.ram
    ensures Ready(frames, root) && OthersKept(old(frames.ram[..]), frames.ram[..], root, Indices(virt))
    ensures r == Answer(old(frames.ram[..]), root, Indices(virt), frame, true, old(frames.free))
    ensures r == Done ==>
      var was, now := Translate(old(frames.ram[..]), root, Indices(virt)), Translate(frames.ram[..], root,
          Indices(virt));
      && now.Some? && now.value.level == 0 && Address(now.value.entry) == frame
      && (was.Some? ==> now == was)
      && (Flags(now.value.entry) == PRESENT_WRITABLE + DEVICE
          <==> was.None? || Flags(was.value.entry) == PRESENT_WRITABLE + DEVICE)
    ensures r != Done ==>
              Translate(frames.ram[..], root, Indices(virt)) == Translate(old(frames.ram[..]), root, Indices(virt))
  {
    hide Translate, Made, Frames.Valid, Tree, Apart, MayChange, Indices, OthersKept, Address, Flags, Present, Huge;
    r := Put(frames, root, virt, frame, true, DEVICE);
    MadeIs(frame, DEVICE);
  }

  /** A page that was not mapped, mapped as memory and then as a device: both are
      done, and the page stays cached. */
  method CachedDevice(frames: Frames, root: nat, virt: nat, frame: nat) returns (first: Result, second: Result)
    requires Ready(frames, root) && root % FRAME == 0 && frame % FRAME == 0 && frame < ADDRESSES && frames.free >= 3
    requires Translate(frames.ram[..], root, Indices(virt)) == None
    modifies frames`head, frames`free, frames`list, frames.ram
    ensures first == Done && second == Done
    ensures var now := Translate(frames.ram[..], root, Indices(virt));
            now.Some? && Flags(now.value.entry) == PRESENT_WRITABLE != PRESENT_WRITABLE + DEVICE
  {
    hide Translate, Made, Frames.Valid, Tree, Apart, MayChange, Indices, OthersKept, Address, Flags, Present,
      Huge, Depth;
    first := Map(frames, root, virt, frame);
    MadeIs(frame, 0);
    second := MapDevice(frames, root, virt, frame);
  }

  /** The flags of a page, read down the tables. */
  method FlagsOf(frames: Frames, root: nat, virt: nat) returns (r: Option<int>)
    requires Ready(frames, root) && root % FRAME == 0
    ensures r == match Translate(frames.ram[..], root, Indices(virt))
                 case None => None
                 case Some(m) => Some(Flags(m.entry))
  {
    hide TableOf, Translate, Huge, Present, Address, Frames.Valid, Tree, Apart, Indices, Flags, At;
    var page := Indices(virt);
    var table := root;
    Start(frames.ram[..], root, page, frames.list);
    for k := 0 to 3
      invariant TableOf(frames.ram[..], root, page[..k]) == Some(table)
    {
      TableFits(frames, root, page, k);
      var value := frames.ram[table / 8 + page[k]];
      if !Present(value) {
        StopsAt(frames.ram[..], root, page, k);
        return None;
      }
      if Huge(value) {
        HugeAt(frames.ram[..], root, page, k);
        return Some(Flags(value));
      }
      NextTable(frames.ram[..], root, page, k);
      table := Address(value);
    }
    TableFits(frames, root, page, 3);
    WalkFrom(frames.ram[..], root, page, 3);
    WalkEnd(frames.ram[..], root, page);
    var value := frames.ram[table / 8 + page[3]];
    r := if Present(value) then Some(Flags(value)) else None;
  }

  // ---- Any run ----------------------------------------------------------------------------------

  datatype Request = MapPage(virt: nat, frame: nat, again: bool, device: bool) | TakeFrame | GiveFrame(frame: nat)

  /** Frames given back are frames of memory, not free and not a table; frames
      mapped are frames. */
  ghost predicate Allowed(frames: Frames, root: nat, request: Request)
    reads frames, frames.ram
  {
    match request
    case MapPage(virt, frame, again, device) => frame % FRAME == 0 && frame < ADDRESSES
    case TakeFrame => true
    case GiveFrame(frame) =>
      && IsFrame(frame, frames.ram.Length) && frame !in frames.list
      && forall p | IsPath(p)
          && TableOf(frames.ram[..], root, p).Some? :: TableOf(frames.ram[..], root, p).value != frame
  }

  /** Whatever is asked: the tables stay a tree, apart from the free frames, and
      only the pages asked for are translated differently. */
  method Step(frames: Frames, root: nat, request: Request)
    requires Ready(frames, root) && root % FRAME == 0 && Allowed(frames, root, request)
    modifies frames`head, frames`free, frames`list, frames.ram
    ensures Ready(frames, root) && Distinct(frames.list) && frames.free == |frames.list|
    ensures forall page | IsPage(page)
            && Translate(frames.ram[..], root, page) != Translate(old(frames.ram[..]), root, page) ::
              request.MapPage? && page == Indices(request.virt) && Translate(old(frames.ram[..]), root, page) == None
  {
    hide Translate, TableOf, Made, Tree, Apart, MayChange, Indices, Linked, Address, Present, Huge;
    ghost var was, list := frames.ram[..], frames.list;
    match request {
      case MapPage(virt, frame, again, device) =>
        var r := Put(frames, root, virt, frame, again, if device then DEVICE else 0);
      case TakeFrame =>
        var r := frames.Allocate();
        if r.Some? {
          assert list == [r.value] + frames.list;
          Untouched(was, frames.ram[..], root, list, frames.list, r.value);
        }
      case GiveFrame(frame) =>
        frames.Deallocate(frame);
        assert Apart(was, root, [frame] + list) by {
          NotListed(was, root, list, frame);
        }
        Untouched(was, frames.ram[..], root, [frame] + list, frames.list, frame);
    }
    NoCycle(frames.ram[..], frames.head, frames.list);
  }

  lemma NotListed(ram: seq<word>, root: nat, list: seq<nat>, frame: nat)
    requires Apart(ram, root, list)
    requires forall p | IsPath(p) && TableOf(ram, root, p).Some? :: TableOf(ram, root, p).value != frame
    ensures Apart(ram, root, [frame] + list)
  {
    hide TableOf;
  }

  /** A change within one frame that is no table. */
  lemma Untouched(ram: seq<word>, after: seq<word>, root: nat, list: seq<nat>, rest: seq<nat>, frame: nat)
    requires Tree(ram, root) && Apart(ram, root, list) && |after| == |ram| && frame % FRAME == 0 && frame in list
    requires forall f | f in rest :: f in list
    requires forall w | 0 <= w < |ram| && !(frame / 8 <= w < frame / 8 + WORDS) :: after[w] == ram[w]
    ensures Tree(after, root) && Apart(after, root, rest)
    ensures forall page | IsPage(page) :: Translate(after, root, page) == Translate(ram, root, page)
  {
    hide TableOf;
    forall q, j: nat | IsPath(q) && TableOf(ram, root, q).Some? && j < ENTRIES
      ensures At(after, TableOf(ram, root, q).value, j) == At(ram, TableOf(ram, root, q).value, j)
    {
      PhysicalMemory.Apart(TableOf(ram, root, q).value, frame);
    }
    forall q | IsPath(q)
      ensures TableOf(after, root, q) == TableOf(ram, root, q)
    {
      NoPrefix(q);
      TableSame(ram, after, root, [ENTRIES], 0, q);
    }
    forall page | IsPage(page)
      ensures Translate(after, root, page) == Translate(ram, root, page)
    {
      NoPrefix(page);
      WalkSame(ram, after, root, [ENTRIES], 0, page, 0);
    }
  }

  lemma NoPrefix(q: seq<nat>)
    requires forall i | 0 <= i < |q| :: q[i] < ENTRIES
    ensures !([ENTRIES] + [0] <= q)
  {
    var s := [ENTRIES] + [0];
    if |q| > 0 {
      assert q[0] != s[0];
    }
  }
}
