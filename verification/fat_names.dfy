/** Directory slots: the names they carry, and the slots a new entry gets. */
module FatNames {
  import opened Base
  import opened FatLayout

  const ATTR_DIRECTORY: nat := 0x10
  const ATTR_ARCHIVE: nat := 0x20
  const ATTR_LONG: nat := 0x0F
  /** UTF-16 units in one long-name slot. */
  const LONG_CHARS: nat := 13
  const DOT: nat := 0x2E
  const SPACE: nat := 0x20

  type Slot = s: seq<byte> | |s| == 32 witness seq(32, _ => 0)

  /** Where the 13 units of a long-name slot sit in its bytes. */
  function Position(i: nat): (p: nat)
    requires i < LONG_CHARS
    ensures 1 <= p <= 30 && p != 11 && p != 12 && p != 13 && p != 10 && p != 26 && p != 27
  {
    if i < 5 then 1 + 2 * i else if i < 11 then 14 + 2 * (i - 5) else 28 + 2 * (i - 11)
  }

  // ---- Reading names ----------------------------------------------------------------------------

  /** The 13 units of a long-name slot. */
  function SlotUnits(raw: Slot): (r: seq<nat>)
    ensures |r| == LONG_CHARS
  {
    seq(LONG_CHARS, i requires 0 <= i < LONG_CHARS => raw[Position(i)] as nat + 0x100 * raw[Position(i) + 1] as nat)
  }

  /** One long-name slot read: its order, and its units. */
  datatype Part = Part(order: nat, units: seq<nat>)

  /** `parts` with `part` put after every part whose order is no greater. */
  function Insert(parts: seq<Part>, part: Part): seq<Part> {
    if parts == [] || parts[|parts| - 1].order <= part.order then parts + [part]
    else Insert(parts[..|parts| - 1], part) + [parts[|parts| - 1]]
  }

  /** The parts in ascending order, equal orders as they came. */
  function Sorted(parts: seq<Part>): seq<Part> {
    if parts == [] then [] else Insert(Sorted(parts[..|parts| - 1]), parts[|parts| - 1])
  }

  function AllUnits(parts: seq<Part>): seq<nat> {
    if parts == [] then [] else AllUnits(parts[..|parts| - 1]) + parts[|parts| - 1].units
  }

  /** The units before the first zero. */
  function UntilZero(s: seq<nat>): seq<nat> {
    if s == [] || s[0] == 0 then [] else [s[0]] + UntilZero(s[1..])
  }

  /** The name read from the pieces of several slots, put in the order of their
      numbers. */
  function LongName(parts: seq<Part>): Name {
    UntilZero(AllUnits(Sorted(parts)))
  }

  predicate Blank(c: nat) {
    9 <= c <= 13 || c == SPACE || c == 0x85 || c == 0xA0
  }

  function TrimEnd(s: seq<nat>): seq<nat> {
    if s == [] || !Blank(s[|s| - 1]) then s else TrimEnd(s[..|s| - 1])
  }

  predicate IsUpper(c: nat) { 0x41 <= c <= 0x5A }
  predicate IsLower(c: nat) { 0x61 <= c <= 0x7A }
  predicate IsDigit(c: nat) { 0x30 <= c <= 0x39 }
  function Upper(c: nat): nat { if IsLower(c) then c - 32 else c }
  function Lower(c: nat): nat { if IsUpper(c) then c + 32 else c }

  function Map(f: nat -> nat, s: seq<nat>): (r: seq<nat>)
    ensures |r| == |s| && forall i | 0 <= i < |s| :: r[i] == f(s[i])
  {
    seq(|s|, i requires 0 <= i < |s| => f(s[i]))
  }

  /** The base or the extension of a short slot, as a name. */
  function Shown(bytes: seq<nat>, lower: bool): seq<nat> {
    if lower then Map(Lower, TrimEnd(bytes)) else TrimEnd(bytes)
  }

  /** The name a short slot alone reads as. */
  function ShortName(raw: Slot): Name {
    var base := Shown(raw[..8], raw[12] / 8 % 2 == 1);
    var shown := if raw[0] == 0x05 && base != [] then [0xE5] + base[1..] else base;
    var extension := Shown(raw[8..11], raw[12] / 16 % 2 == 1);
    if extension == [] then shown else shown + [DOT] + extension
  }

  // ---- Short names for new entries --------------------------------------------------------------

  predicate Special(c: nat) {
    c in [0x24, 0x25, 0x27, 0x2D, 0x5F, 0x40, 0x7E, 0x60, 0x21, 0x28, 0x29, 0x7B, 0x7D, 0x5E, 0x23, 0x26]
  }

  predicate Valid(c: nat) {
    IsUpper(c) || IsDigit(c) || Special(c)
  }

  /** Where the last dot is, or None. */
  function LastDot(name: Name): (r: Option<nat>)
    ensures r.Some? ==> r.value < |name| && name[r.value] == DOT
    ensures forall i | 0 <= i < |name| && name[i] == DOT :: r.Some? && i <= r.value
  {
    if name == [] then None
    else if name[|name| - 1] == DOT then Some(|name| - 1)
    else LastDot(name[..|name| - 1])
  }

  /** What comes before and after the last dot; a name with nothing before its
      last dot has no extension. */
  function Split(name: Name): (r: (Name, Name))
    ensures r.1 != [] ==> name == r.0 + [DOT] + r.1
    ensures r.1 == [] ==> name == r.0 || (name == r.0 + [DOT] && r.0 != [])
  {
    var dot := LastDot(name);
    if dot.Some? && dot.value > 0 then (name[..dot.value], name[dot.value + 1..]) else (name, [])
  }

  predicate Fits(part: seq<nat>, limit: nat) {
    part != [] && |part| <= limit && forall i | 0 <= i < |part| :: Valid(Upper(part[i]))
  }

  predicate HasLower(part: seq<nat>) {
    exists i :: 0 <= i < |part| && IsLower(part[i])
  }

  predicate HasUpper(part: seq<nat>) {
    exists i :: 0 <= i < |part| && IsUpper(part[i])
  }

  predicate OneCase(part: seq<nat>) {
    !HasLower(part) || !HasUpper(part)
  }

  function Dots(name: Name): nat {
    if name == [] then 0 else Dots(name[..|name| - 1]) + if name[|name| - 1] == DOT then 1 else 0
  }

  /** Whether a name is stored as it is, in 8.3 form. */
  predicate Plain(name: Name) {
    var (base, extension) := Split(name);
    && Fits(base, 8)
    && (extension == [] || Fits(extension, 3))
    && OneCase(base) && OneCase(extension)
    && Dots(name) <= 1
  }

  /** At most `n` units, upper case, padded with spaces. */
  function Field(part: seq<nat>, n: nat): (r: seq<byte>)
    ensures |r| == n
  {
    seq(n, i requires 0 <= i < n => if i < |part| && Upper(part[i]) < 256 then Upper(part[i]) else SPACE)
  }

  /** The valid characters of a part, upper case, at most `limit` of them. */
  function Clean(part: seq<nat>, limit: nat): (r: seq<nat>)
    ensures |r| <= limit && forall i | 0 <= i < |r| :: Valid(r[i])
  {
    if part == [] || limit == 0 then []
    else if Valid(Upper(part[0])) then [Upper(part[0])] + Clean(part[1..], limit - 1)
    else Clean(part[1..], limit)
  }

  function Digits(n: nat): (r: seq<nat>)
    ensures r != [] && forall i | 0 <= i < |r| :: IsDigit(r[i])
    ensures n < 10 ==> |r| == 1
    ensures n < 1_000_000 ==> |r| <= 6
  {
    DigitsUpTo(n, if n < 10 then 1 else if n < 100 then 2 else if n < 1000 then 3 else if n < 10_000 then 4
                  else if n < 100_000 then 5 else 6)
  }

  function DigitsUpTo(n: nat, places: nat): (r: seq<nat>)
    requires places > 0
    ensures |r| == places && forall i | 0 <= i < |r| :: IsDigit(r[i])
  {
    if places == 1 then [0x30 + n % 10] else DigitsUpTo(n / 10, places - 1) + [0x30 + n % 10]
  }

  const FICHIE: seq<nat> := [0x46, 0x49, 0x43, 0x48, 0x49, 0x45]

  /** The alias `BASE~N.EXT` of a name. */
  function Alias(name: Name, number: nat): (r: seq<byte>)
    requires 1 <= number <= 999_999
    ensures |r| == 11 && Valid(r[0])
  {
    var (base, extension) := Split(name);
    var cleaned := Clean(base, 6);
    var stem := if cleaned == [] then FICHIE else cleaned;
    var suffix := [0x7E] + Digits(number);
    var keep := if 8 - |suffix| < |stem| then 8 - |suffix| else |stem|;
    Field(stem[..keep] + suffix, 8) + Field(Clean(extension, 3), 3)
  }

  /** The first alias from `number` on that no entry has. */
  function FreeAlias(name: Name, taken: set<seq<byte>>, number: nat): (r: Option<seq<byte>>)
    requires 1 <= number
    ensures r.Some? ==> |r.value| == 11 && Valid(r.value[0]) && r.value !in taken
    decreases 1_000_000 - number
  {
    if number > 999_999 then None
    else if Alias(name, number) !in taken then Some(Alias(name, number))
    else FreeAlias(name, taken, number + 1)
  }

  datatype Short = Short(bytes: seq<byte>, flags: byte, long: bool)

  /** What goes into the short slot of `name`: never bytes that are taken, and with
      long-name slots exactly when the name is not plain. */
  function ShortFor(name: Name, taken: set<seq<byte>>): (r: Option<Short>)
    ensures r.Some? ==> |r.value.bytes| == 11 && r.value.bytes !in taken && Valid(r.value.bytes[0])
    ensures r.Some? ==> r.value.long == !Plain(name)
  {
    var (base, extension) := Split(name);
    if Plain(name) then
      var bytes := Field(base, 8) + Field(extension, 3);
      if bytes in taken then None
      else Some(Short(bytes, (if HasLower(base) then 8 else 0) + (if HasLower(extension) then 16 else 0), false))
    else
      var alias := FreeAlias(name, taken, 1);
      if alias.None? then None else Some(Short(alias.value, 0, true))
  }

  // ---- The slots of a new entry -----------------------------------------------------------------

  /** The long-name slots a name of `n` units takes. */
  function Pieces(n: nat): nat {
    (n + LONG_CHARS - 1) / LONG_CHARS
  }

  /** The rotating sum over the 11 bytes that every long-name slot repeats. */
  function Checksum(short: seq<byte>): byte {
    if short == [] then 0
    else
      var sum := Checksum(short[..|short| - 1]);
      (sum % 2 * 128 + sum / 2 + short[|short| - 1]) % 256
  }

  function UnitAt(units: Name, position: nat): nat {
    if position < |units| then units[position] else if position == |units| then 0 else 0xFFFF
  }

  /** The unit that byte `at` of a long-name slot belongs to. */
  function UnitOf(at: nat): (i: nat)
    requires 1 <= at < 32 && at != 11 && at != 12 && at != 13 && at != 26 && at != 27
    ensures i < LONG_CHARS && (at == Position(i) || at == Position(i) + 1)
  {
    if at < 11 then (at - 1) / 2 else if at < 26 then 5 + (at - 14) / 2 else 11 + (at - 28) / 2
  }

  /** Long-name slot number `piece` of a name. */
  function LongSlot(units: Name, piece: nat, checksum: byte): (r: Slot)
    requires piece < Pieces(|units|) <= 63 && forall i | 0 <= i < |units| :: units[i] < 0x1_0000
  {
    seq(32, at requires 0 <= at < 32 =>
      if at == 0 then piece + 1 + (if piece + 1 == Pieces(|units|) then 0x40 else 0)
      else if at == 11 then ATTR_LONG
      else if at == 13 then checksum
      else if at == 12 || at == 26 || at == 27 then 0
      else
        var i := UnitOf(at);
        var unit := UnitAt(units, piece * LONG_CHARS + i);
        if at == Position(i) then unit % 256 else unit / 256)
  }

  datatype Stamp = Stamp(date: nat, time: nat)

  function Le2(n: nat): seq<byte> {
    [n % 256, n / 256 % 256]
  }

  /** The short slot of an entry. */
  function ShortSlot(short: Short, attr: byte, cluster: nat, size: nat, stamp: Stamp): (r: Slot)
    requires |short.bytes| == 11 && cluster < 0x1_0000_0000 && size < 0x1_0000_0000
  {
    short.bytes + [attr, short.flags, 0] + Le2(stamp.time) + Le2(stamp.date) + Le2(stamp.date)
    + Le2(cluster / 0x1_0000) + Le2(stamp.time) + Le2(stamp.date) + Le2(cluster % 0x1_0000) + Le4(size)
  }

  /** The slots of a new entry: long-name slots last piece first, then the
      short slot. */
  function EntrySlots(name: Name, short: Short, attr: byte, cluster: nat, size: nat, stamp: Stamp): (r: seq<Slot>)
    requires |short.bytes| == 11 && cluster < 0x1_0000_0000 && size < 0x1_0000_0000
    requires Pieces(|name|) <= 63 && forall i | 0 <= i < |name| :: name[i] < 0x1_0000
    ensures |r| == 1 + if short.long then Pieces(|name|) else 0
  {
    (if short.long then LongSlots(name, Pieces(|name|), Checksum(short.bytes)) else [])
    + [ShortSlot(short, attr, cluster, size, stamp)]
  }

  function LongSlots(name: Name, n: nat, checksum: byte): (r: seq<Slot>)
    requires n <= Pieces(|name|) <= 63 && forall i | 0 <= i < |name| :: name[i] < 0x1_0000
    ensures |r| == n
  {
    if n == 0 then [] else [LongSlot(name, n - 1, checksum)] + LongSlots(name, n - 1, checksum)
  }
}
