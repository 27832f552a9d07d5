/** The line of limine.conf that says which slot boots. */
module BootText {
  import opened Base

  datatype Slot = A | B

  function Other(s: Slot): Slot {
    if s == A then B else A
  }

  /** "default_entry: " */
  const KEY: seq<byte> := [0x64, 0x65, 0x66, 0x61, 0x75, 0x6C, 0x74, 0x5F, 0x65, 0x6E, 0x74, 0x72, 0x79, 0x3A, 0x20]

  function Digit(s: Slot): byte {
    if s == A then 0x31 else 0x32
  }

  /** The line that makes slot `s` boot: entry 1 is slot a, entry 2 slot b. */
  function Line(s: Slot): (r: seq<byte>)
    ensures |r| == 16
  {
    KEY + [Digit(s)]
  }

  predicate At(text: seq<byte>, i: nat, pattern: seq<byte>) {
    i + |pattern| <= |text| && text[i..i + |pattern|] == pattern
  }

  /** Where a pattern first is, from `from` on. */
  function FirstOf(text: seq<byte>, pattern: seq<byte>, from: nat): (r: Option<nat>)
    ensures r.Some? ==>
              from <= r.value && At(text, r.value, pattern) && forall i | from <= i < r.value :: !At(text, i, pattern)
    ensures r.None? ==> forall i: nat | from <= i :: !At(text, i, pattern)
    decreases |text| - from
  {
    if At(text, from, pattern) then Some(from)
    else if from >= |text| then None
    else FirstOf(text, pattern, from + 1)
  }

  /** The slot Limine takes by default: the one the first such line names. */
  function Boots(text: seq<byte>): Option<Slot> {
    var a, b := FirstOf(text, Line(A), 0), FirstOf(text, Line(B), 0);
    if a.Some? && (b.None? || a.value < b.value) then Some(A)
    else if b.Some? then Some(B)
    else None
  }

  /** The text `install` writes back, to make `target` boot. */
  function Switched(text: seq<byte>, target: Slot): seq<byte> {
    if FirstOf(text, Line(target), 0).Some? then text
    else
      var at := FirstOf(text, Line(Other(target)), 0);
      if at.None? then text else text[..at.value] + Line(target) + text[at.value + 16..]
  }

  /** Which of the two lines is at a place shows in its last byte alone. */
  lemma AtDigit(text: seq<byte>, i: nat, s: Slot)
    ensures At(text, i, Line(s)) <==> At(text, i, KEY) && i + 15 < |text| && text[i + 15] == Digit(s)
  {
    if i + 16 <= |text| {
      assert text[i..i + 16] == text[i..i + 15] + [text[i + 15]];
      assert Line(s)[..15] == KEY && Line(s)[15] == Digit(s);
      assert text[i..i + 16][..15] == text[i..i + 15];
    }
  }

  lemma KeyBytes(text: seq<byte>, i: nat, k: nat)
    requires At(text, i, KEY) && k < 15
    ensures text[i + k] != 0x31 && text[i + k] != 0x32
  {
    assert text[i + k] == text[i..i + 15][k] == KEY[k];
  }

  /** One digit changed, the key is where it was and nowhere else. */
  lemma KeyStays(text: seq<byte>, after: seq<byte>, at: nat, i: nat)
    requires |after| == |text| && at < |text| && (text[at] == 0x31 || text[at] == 0x32)
    requires (after[at] == 0x31 || after[at] == 0x32)
    requires forall k | 0 <= k < |text| && k != at :: after[k] == text[k]
    ensures At(text, i, KEY) <==> At(after, i, KEY)
  {
    if At(text, i, KEY) && i <= at < i + 15 {
      KeyBytes(text, i, at - i);
    }
    if At(after, i, KEY) && i <= at < i + 15 {
      KeyBytes(after, i, at - i);
    }
    if i + 15 <= |text| && !(i <= at < i + 15) {
      assert text[i..i + 15] == after[i..i + 15];
    }
  }

  /** The switch changes one byte, the digit of the first line there is. */
  lemma SwitchedByte(text: seq<byte>, target: Slot)
    requires FirstOf(text, Line(target), 0).None? && FirstOf(text, Line(Other(target)), 0).Some?
    ensures var at, after := FirstOf(text, Line(Other(target)), 0).value + 15, Switched(text, target);
            && |after| == |text| && at < |text| && text[at] == Digit(Other(target)) && after[at] == Digit(target)
            && forall k | 0 <= k < |text| && k != at :: after[k] == text[k]
  {
    hide FirstOf;
    var i := FirstOf(text, Line(Other(target)), 0).value;
    AtDigit(text, i, Other(target));
    assert Line(target)[..15] == KEY == Line(Other(target))[..15];
    assert text[i..i + 16] == Line(Other(target));
    var after := Switched(text, target);
    forall k | 0 <= k < |text| && k != i + 15
      ensures after[k] == text[k]
    {
      if i <= k < i + 15 {
        assert after[k] == Line(target)[k - i] == KEY[k - i] && text[k] == text[i..i + 16][k - i];
      }
    }
  }

  /** After the switch the target boots, unless the text had its line already,
      further down: then nothing is changed. */
  lemma SwitchedBoots(text: seq<byte>, target: Slot)
    requires Boots(text) == Some(Other(target))
    ensures Boots(Switched(text, target)) == Some(target) <==> FirstOf(text, Line(target), 0).None?
    ensures FirstOf(text, Line(target), 0).Some? ==> Switched(text, target) == text
    ensures |Switched(text, target)| == |text|
  {
    hide FirstOf;
    if FirstOf(text, Line(target), 0).None? {
      var i := FirstOf(text, Line(Other(target)), 0).value;
      var after := Switched(text, target);
      SwitchedByte(text, target);
      AtDigit(text, i, Other(target));
      KeyStays(text, after, i + 15, i);
      AtDigit(after, i, target);
      forall k | 0 <= k < i
        ensures !At(after, k, Line(target)) && !At(after, k, Line(Other(target)))
      {
        KeyStays(text, after, i + 15, k);
        AtDigit(text, k, target);
        AtDigit(text, k, Other(target));
        AtDigit(after, k, target);
        AtDigit(after, k, Other(target));
      }
      AtDigit(after, i, Other(target));
      FirstAt(after, Line(target), i);
    }
  }

  /** What is at a place is not missed. */
  lemma FirstAt(text: seq<byte>, pattern: seq<byte>, i: nat)
    requires At(text, i, pattern)
    ensures FirstOf(text, pattern, 0).Some? && FirstOf(text, pattern, 0).value <= i
  {
    hide FirstOf;
  }
}
