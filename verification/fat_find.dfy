/** Paths as they are written, and the way from the root along one. */
module FatFind {
  import opened Base
  import opened Blocks
  import opened FatLayout
  import opened FatData
  import opened FatNames
  import opened FatDirectory
  import opened FatRoundTrip
  import opened FatTree
  import opened FatSlots

  const SLASH: nat := 0x2F
  const MAX_CHARS: nat := 255

  // ---- A path cut at its slashes ----------------------------------------------------------------

  /** The whole parts of a text so far, and the part being read. */
  datatype Cutting = Cutting(parts: Path, part: Name)
  {
    /** The parts if the text ends here; empty ones do not count. */
    function End(): Path {
      if part == [] then parts else parts + [part]
    }
  }

  function CutAt(text: seq<nat>): Cutting {
    if text == [] then Cutting([], [])
    else
      var before, c := CutAt(text[..|text| - 1]), text[|text| - 1];
      if c == SLASH then Cutting(before.End(), []) else before.(part := before.part + [c])
  }

  /** The parts of a path. */
  function Parts(text: seq<nat>): Path {
    CutAt(text).End()
  }

  lemma {:induction false} CutPlain(text: seq<nat>, name: Name)
    requires SLASH !in name && CutAt(text).part == []
    ensures CutAt(text + name) == Cutting(CutAt(text).parts, name)
  {
    if name == [] {
      assert text + name == text;
    } else {
      var n := |name| - 1;
      assert (text + name)[..|text + name| - 1] == text + name[..n];
      assert name == name[..n] + [name[n]];
      CutPlain(text, name[..n]);
    }
  }

  function TrimSlashes(text: seq<nat>): (r: seq<nat>)
    ensures |r| <= |text| && r == text[..|r|] && (r != [] ==> r[|r| - 1] != SLASH)
  {
    if text == [] || text[|text| - 1] != SLASH then text else TrimSlashes(text[..|text| - 1])
  }

  function AfterSlash(text: seq<nat>): (r: nat)
    ensures r <= |text| && SLASH !in text[r..] && (r > 0 ==> text[r - 1] == SLASH)
  {
    if text == [] then 0
    else if text[|text| - 1] == SLASH then |text|
    else
      assert text == text[..|text| - 1] + [text[|text| - 1]];
      AfterSlash(text[..|text| - 1])
  }

  /** The text before the last part, and the last part. */
  function Halves(text: seq<nat>): (seq<nat>, Name) {
    var trimmed := TrimSlashes(text);
    var at := AfterSlash(trimmed);
    (if at == 0 then [] else trimmed[..at - 1], trimmed[at..])
  }

  lemma {:induction false} TrimParts(text: seq<nat>)
    ensures Parts(TrimSlashes(text)) == Parts(text)
  {
    if text != [] && text[|text| - 1] == SLASH {
      TrimParts(text[..|text| - 1]);
    }
  }

  /** The last part goes into what the rest of the path leads to. */
  lemma HalvesParts(text: seq<nat>)
    requires Halves(text).1 != []
    ensures Parts(text) == Parts(Halves(text).0) + [Halves(text).1]
  {
    var trimmed := TrimSlashes(text);
    var at := AfterSlash(trimmed);
    TrimParts(text);
    assert trimmed == trimmed[..at] + trimmed[at..];
    if at > 0 {
      assert trimmed[..at][..at - 1] == trimmed[..at - 1];
      assert CutAt(trimmed[..at]) == Cutting(Parts(trimmed[..at - 1]), []);
    }
    CutPlain(trimmed[..at], trimmed[at..]);
  }

  /** Cuts a path at its slashes. */
  method SplitPath(text: seq<nat>) returns (parts: Path)
    ensures parts == Parts(text)
  {
    var part: Name := [];
    parts := [];
    for i := 0 to |text|
      invariant CutAt(text[..i]) == Cutting(parts, part)
    {
      assert text[..i + 1][..i] == text[..i];
      if text[i] == SLASH {
        if part != [] {
          parts := parts + [part];
        }
        part := [];
      } else {
        part := part + [text[i]];
      }
    }
    assert text[..|text|] == text;
    if part != [] {
      parts := parts + [part];
    }
  }

  // ---- Names ------------------------------------------------------------------------------------

  /** Characters of a name: a surrogate pair is one. */
  function Chars(name: Name): nat {
    if name == [] then 0
    else Chars(name[..|name| - 1]) + if 0xDC00 <= name[|name| - 1] < 0xE000 then 0 else 1
  }

  predicate Forbidden(c: nat) {
    c < 0x20 || c in [0x22, 0x2A, 0x2F, 0x3A, 0x3C, 0x3E, 0x3F, 0x5C, 0x7C]
  }

  predicate ValidName(name: Name) {
    && name != [] && !IsDotName(name) && Chars(name) <= MAX_CHARS
    && forall i | 0 <= i < |name| :: !Forbidden(name[i])
  }

  predicate IsText(text: seq<nat>) {
    forall i | 0 <= i < |text| :: text[i] < 0x1_0000
  }

  /** A valid name that is read back as it was given: it fits the reader's 31
      long-name slots, and is no 8.3 name with a dot at its end. */
  predicate Storable(name: Name) {
    Pieces(|name|) <= 31 && !(Plain(name) && name != [] && name[|name| - 1] == DOT)
  }

  lemma StorableIs(text: seq<nat>)
    requires IsText(text) && ValidName(Halves(text).1)
    ensures Storable(Halves(text).1) <==> Permitted(Halves(text).1) && ReadBack(Halves(text).1) == Halves(text).1
  {
    hide Plain, Pieces, AfterSlash, TrimSlashes;
    var name, trimmed := Halves(text).1, TrimSlashes(text);
    var at := AfterSlash(trimmed);
    forall i | 0 <= i < |name|
      ensures 0 < name[i] < 0x1_0000
    {
      assert name[i] == trimmed[at + i] == text[at + i];
      assert !Forbidden(name[i]);
    }
  }

  // ---- Following a path -------------------------------------------------------------------------

  /** The first item of that name. */
  method FirstNamed(v: Volume, items: seq<Item>, name: Name) returns (r: Option<nat>)
    ensures r == Lookup(v, items, name)
  {
    hide Lookup;
    for i := 0 to |items|
      invariant forall k | 0 <= k < i :: !v.SameName(items[k].name, name)
    {
      if v.SameName(items[i].name, name) {
        return Some(i);
      }
    }
    r := None;
  }

  /** Past a part that leads nowhere, nothing is found. */
  lemma {:induction false} FindStuck(v: Volume, d: Image, path: Path, n: nat)
    requires v.Holds(d) && n <= |path| && Find(v, d, path[..n]) == None
    ensures Find(v, d, path) == None
    decreases |path| - n
  {
    hide ListDir;
    if n < |path| {
      assert path[..n + 1][..n] == path[..n];
      FindStuck(v, d, path, n + 1);
    } else {
      assert path[..n] == path;
    }
  }

  /** The loop over the parts of a path finds what `Find` says is there. */
  method FindPath(v: Volume, disk: Disk, text: seq<nat>) returns (r: Option<Entry>)
    requires v.Holds(disk.sectors)
    ensures r == Find(v, disk.sectors, Parts(text))
  {
    hide Find, Lookup, DirItems, Parts;
    ghost var d := disk.sectors;
    var path := SplitPath(text);
    var current := RootEntry(v);
    FindRoot(v, d);
    assert path[..0] == [];
    for i := 0 to |path|
      invariant Find(v, d, path[..i]) == Some(current)
    {
      assert path[..i + 1][..i] == path[..i];
      FindNext(v, d, path[..i], path[i]);
      assert path[..i + 1] == path[..i] + [path[i]];
      if !current.directory {
        FindStuck(v, d, path, i + 1);
        return None;
      }
      var directory := ReadDirectory(v, disk, current.cluster);
      if directory.None? {
        FindStuck(v, d, path, i + 1);
        return None;
      }
      ListedIs(v, d, current.cluster, directory.value);
      var at := FirstNamed(v, directory.value.items, path[i]);
      if at.None? {
        FindStuck(v, d, path, i + 1);
        return None;
      }
      current := directory.value.items[at.value].entry;
    }
    assert path[..|path|] == path;
    r := Some(current);
  }

  lemma FindRoot(v: Volume, d: Image)
    requires v.Holds(d)
    ensures Find(v, d, []) == Some(RootEntry(v))
  {
  }

  lemma FindNext(v: Volume, d: Image, path: Path, name: Name)
    requires v.Holds(d)
    ensures Find(v, d, path + [name]) == Enter(v, d, Find(v, d, path), name)
  {
    hide Enter;
    assert (path + [name])[..|path|] == path;
  }

  lemma ListedIs(v: Volume, d: Image, cluster: nat, directory: Directory)
    requires v.Holds(d) && IsDirectory(v, d, cluster, directory)
    ensures ListDir(v, d, cluster) == Some(directory.items)
  {
    hide DirSlots, Items;
  }

  /** Where an entry for this path belongs: the directory the rest of it leads to,
      and its name; None when there is none, the name is not allowed, or the FATs
      are not mirrored. */
  ghost function Place(v: Volume, d: Image, text: seq<nat>): Option<(Entry, Name)>
    requires v.Holds(d)
  {
    var (before, name) := Halves(text);
    var parent := Find(v, d, Parts(before));
    if v.fats == 0 || !ValidName(name) || parent.None?
        || !parent.value.directory then None else Some((parent.value, name))
  }

  method ParentAndName(v: Volume, disk: Disk, text: seq<nat>) returns (r: Option<(Entry, Name)>)
    requires v.Holds(disk.sectors)
    ensures r == Place(v, disk.sectors, text)
  {
    hide Find, Parts, ValidName, Halves;
    if v.fats == 0 {
      return None;
    }
    var (before, name) := Halves(text);
    if !ValidName(name) {
      return None;
    }
    var parent := FindPath(v, disk, before);
    if parent.None? || !parent.value.directory {
      return None;
    }
    r := Some((parent.value, name));
  }
}
