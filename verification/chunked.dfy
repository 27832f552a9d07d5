/** Bodies sent in chunks, section 7.1 of RFC 9112: what the decoder accepts, and
    what it makes of it. */
module Chunked {
  import opened Base

  const CR: byte := 13
  const LF: byte := 10
  const SEMICOLON: byte := 59
  const CRLF: seq<byte> := [13, 10]
  /** Sizes are 64-bit numbers; no buffer is longer than half of them. */
  const WIDTH: nat := 0x1_0000_0000_0000_0000
  const LONGEST: nat := 0x7fff_ffff_ffff_ffff

  // ---- The decoder, on values -------------------------------------------------------------------

  /** Where the first CRLF is. */
  function FindCrlf(s: seq<byte>): (r: Option<nat>)
    ensures r.Some? ==> r.value + 2 <= |s|
  {
    if |s| < 2 then None
    else if s[0] == CR && s[1] == LF then Some(0)
    else
      match FindCrlf(s[1..])
      case None => None
      case Some(at) => Some(at + 1)
  }

  /** Everything up to the first semicolon. */
  function UpTo(line: seq<byte>): (r: seq<byte>)
    ensures |r| <= |line|
  {
    if line == [] || line[0] == SEMICOLON then [] else [line[0]] + UpTo(line[1..])
  }

  function HexDigit(b: byte): Option<nat> {
    if 48 <= b <= 57 then Some(b - 48)
    else if 97 <= b <= 102 then Some(b - 87)
    else if 65 <= b <= 70 then Some(b - 55)
    else None
  }

  /** The number some digits stand for; None for another byte, or past 64 bits. */
  function Size(digits: seq<byte>): Option<nat> {
    if digits == [] then Some(0)
    else
      match Size(digits[..|digits| - 1])
      case None => None
      case Some(front) =>
        var digit := HexDigit(digits[|digits| - 1]);
        if digit == None || 16 * front + digit.value >= WIDTH then None else Some(16 * front + digit.value)
  }

  /** How long the trailer section is, its last CRLF included. */
  function Trailer(s: seq<byte>): (r: Option<nat>)
    ensures r.Some? ==> r.value <= |s|
    decreases |s|
  {
    match FindCrlf(s)
    case None => None
    case Some(end) =>
      if end == 0 then Some(2)
      else
        match Trailer(s[end + 2..])
        case None => None
        case Some(rest) => Some(end + 2 + rest)
  }

  /** A size line: where what follows it starts, and the size. */
  datatype Line = Line(at: nat, size: nat)

  function ReadLine(s: seq<byte>): (r: Option<Line>)
    ensures r.Some? ==> 0 < r.value.at <= |s|
  {
    match FindCrlf(s)
    case None => None
    case Some(end) =>
      var digits := UpTo(s[..end]);
      if digits == [] then None
      else
        match Size(digits)
        case None => None
        case Some(size) => Some(Line(end + 2, size))
  }

  /** What was decoded, and from how many bytes. */
  datatype Decoded = Decoded(data: seq<byte>, length: nat)

  function Decode(s: seq<byte>): (r: Option<Decoded>)
    ensures r.Some? ==> r.value.length <= |s|
    decreases |s|
  {
    match ReadLine(s)
    case None => None
    case Some(line) =>
      var end := line.at + line.size;
      if line.size == 0 then
        match Trailer(s[line.at..])
        case None => None
        case Some(rest) => Some(Decoded([], line.at + rest))
      else if end + 2 > |s| || s[end..end + 2] != CRLF then None
      else
        match Decode(s[end + 2..])
        case None => None
        case Some(rest) => Some(Decoded(s[line.at..end] + rest.data, end + 2 + rest.length))
  }

  // ---- The grammar ------------------------------------------------------------------------------

  /** A chunk as it is sent: its size in hexadecimal, its extensions, its data. */
  datatype Chunk = Chunk(digits: seq<byte>, extension: seq<byte>, data: seq<byte>)

  /** A body as it is sent: chunks, the last chunk's line, trailer lines. */
  datatype Sent = Sent(chunks: seq<Chunk>, zeros: seq<byte>, extension: seq<byte>, trailer: seq<seq<byte>>)

  predicate NoCrlf(line: seq<byte>) {
    forall i | 0 <= i < |line| - 1 :: !(line[i] == CR && line[i + 1] == LF)
  }

  /** The number some hexadecimal digits stand for. */
  function Hex(digits: seq<byte>): nat {
    if digits == [] then 0
    else 16 * Hex(digits[..|digits| - 1]) + (match HexDigit(digits[|digits| - 1]) case None => 0 case Some(v) => v)
  }

  predicate Digits(digits: seq<byte>) {
    digits != [] && forall d | d in digits :: HexDigit(d).Some?
  }

  /** Extensions: nothing, or spaces and tabs and a semicolon and what follows. */
  predicate Extension(e: seq<byte>) {
    NoCrlf(e) && (e == [] || exists n: nat :: n < |e| && e[n] == SEMICOLON && forall i | 0 <= i < n :: e[i] in {9, 32})
  }

  predicate GoodChunk(c: Chunk) {
    Digits(c.digits) && Extension(c.extension) && Hex(c.digits) == |c.data| > 0
  }

  predicate Valid(b: Sent) {
    && (forall c | c in b.chunks :: GoodChunk(c))
    && Digits(b.zeros) && Hex(b.zeros) == 0 && Extension(b.extension)
    && (forall line | line in b.trailer :: line != [] && NoCrlf(line))
  }

  /** No space before an extension's semicolon. */
  predicate Tight(e: seq<byte>) {
    e == [] || e[0] == SEMICOLON
  }

  predicate AllTight(b: Sent) {
    Tight(b.extension) && forall c | c in b.chunks :: Tight(c.extension)
  }

  function ChunkBytes(c: Chunk): seq<byte> {
    c.digits + c.extension + CRLF + c.data + CRLF
  }

  function Lines(lines: seq<seq<byte>>): seq<byte> {
    if lines == [] then CRLF else lines[0] + CRLF + Lines(lines[1..])
  }

  function Bytes(b: Sent): seq<byte>
    decreases |b.chunks|
  {
    if b.chunks == [] then b.zeros + b.extension + CRLF + Lines(b.trailer)
    else ChunkBytes(b.chunks[0]) + Bytes(b.(chunks := b.chunks[1..]))
  }

  function Data(chunks: seq<Chunk>): seq<byte> {
    if chunks == [] then [] else chunks[0].data + Data(chunks[1..])
  }

  // ---- Pieces -----------------------------------------------------------------------------------

  /** The first CRLF after a line without one is right behind it. */
  lemma {:induction false} FindAfter(line: seq<byte>, rest: seq<byte>)
    requires NoCrlf(line)
    ensures FindCrlf(line + CRLF + rest) == Some(|line|)
  {
    var s := line + CRLF + rest;
    if line != [] {
      assert s[1..] == line[1..] + CRLF + rest;
      FindAfter(line[1..], rest);
      if |line| > 1 {
        assert !(line[0] == CR && line[0 + 1] == LF);
      }
    }
  }

  /** Where a CRLF was found there is one, and none before. */
  lemma {:induction false} Found(s: seq<byte>)
    ensures match FindCrlf(s)
            case None => NoCrlf(s)
            case Some(at) => s[at..at + 2] == CRLF && NoCrlf(s[..at]) && s == s[..at] + CRLF + s[at + 2..]
  {
    if |s| >= 2 && !(s[0] == CR && s[1] == LF) {
      Found(s[1..]);
      match FindCrlf(s[1..]) {
        case None =>
          forall i | 0 <= i < |s| - 1
            ensures !(s[i] == CR && s[i + 1] == LF)
          {
            assert i > 0 ==> s[i] == s[1..][i - 1] && s[i + 1] == s[1..][i];
          }
        case Some(at) =>
          assert s[at + 1..at + 3] == s[1..][at..at + 2];
          assert s[..at + 1] == [s[0]] + s[1..][..at];
      }
    }
  }

  /** More bytes behind do not move the first CRLF. */
  lemma {:induction false} FindMore(s: seq<byte>, more: seq<byte>)
    requires FindCrlf(s).Some?
    ensures FindCrlf(s + more) == FindCrlf(s)
  {
    if !(s[0] == CR && s[1] == LF) {
      assert (s + more)[1..] == s[1..] + more;
      FindMore(s[1..], more);
    }
  }

  lemma {:induction false} SizeIs(digits: seq<byte>)
    ensures Size(digits) == if (forall d | d in digits :: HexDigit(d).Some?)
            && Hex(digits) < WIDTH then Some(Hex(digits)) else None
  {
    if digits != [] {
      var front, last := digits[..|digits| - 1], digits[|digits| - 1];
      SizeIs(front);
      assert digits == front + [last];
    }
  }

  lemma {:induction false} UpToIs(digits: seq<byte>, rest: seq<byte>)
    requires SEMICOLON !in digits && (rest == [] || rest[0] == SEMICOLON)
    ensures UpTo(digits + rest) == digits
  {
    if digits == [] {
      assert digits + rest == rest;
    } else {
      assert (digits + rest)[1..] == digits[1..] + rest;
      UpToIs(digits[1..], rest);
    }
  }

  /** A line is what is before its first semicolon, and a tight extension. */
  lemma {:induction false} UpToSplit(line: seq<byte>)
    ensures UpTo(line) <= line && SEMICOLON !in UpTo(line) && Tight(line[|UpTo(line)|..])
  {
    if line != [] && line[0] != SEMICOLON {
      UpToSplit(line[1..]);
      assert line[|UpTo(line)|..] == line[1..][|UpTo(line[1..])|..];
    }
  }

  // ---- What valid encodings decode to -----------------------------------------------------------

  lemma {:induction false} LinesBack(lines: seq<seq<byte>>, rest: seq<byte>)
    requires forall line | line in lines :: line != [] && NoCrlf(line)
    ensures Trailer(Lines(lines) + rest) == Some(|Lines(lines)|)
    decreases |lines|
  {
    hide FindCrlf, NoCrlf;
    if lines == [] {
      assert NoCrlf([]) by {
        NoneInNothing();
      }
      assert CRLF + rest == [] + CRLF + rest;
      FindAfter([], rest);
    } else {
      var after := Lines(lines[1..]) + rest;
      assert Lines(lines) + rest == lines[0] + CRLF + after;
      FindAfter(lines[0], after);
      assert (lines[0] + CRLF + after)[|lines[0]| + 2..] == after;
      assert forall line | line in lines[1..] :: line in lines;
      LinesBack(lines[1..], rest);
    }
  }

  lemma NoneInNothing()
    ensures NoCrlf([])
  {
  }

  /** A size line has no CRLF of its own. */
  lemma SizeLine(digits: seq<byte>, extension: seq<byte>)
    requires Digits(digits) && NoCrlf(extension)
    ensures NoCrlf(digits + extension)
  {
    var line := digits + extension;
    forall i | 0 <= i < |line| - 1
      ensures !(line[i] == CR && line[i + 1] == LF)
    {
      if i < |digits| {
        assert HexDigit(digits[i]).Some?;
      } else {
        assert line[i] == extension[i - |digits|] && line[i + 1] == extension[i - |digits| + 1];
      }
    }
  }

  /** The size in a size line: read when the extension is tight, refused when a
      space comes before its semicolon. */
  lemma SizeRead(digits: seq<byte>, extension: seq<byte>)
    requires Digits(digits) && Extension(extension) && Hex(digits) < WIDTH
    ensures UpTo(digits + extension) != []
    ensures Size(UpTo(digits + extension)) == if Tight(extension) then Some(Hex(digits)) else None
  {
    hide Hex, Size, UpTo;
    var line := digits + extension;
    assert SEMICOLON !in digits by {
      assert HexDigit(SEMICOLON) == None;
    }
    if Tight(extension) {
      UpToIs(digits, extension);
      SizeIs(digits);
    } else {
      UpToSplit(line);
      var u := UpTo(line);
      assert extension[0] in {9, 32};
      assert forall k | 0 <= k <= |digits| ::
          line[k] == (if k < |digits| then digits[k] else extension[0]) && line[k] != SEMICOLON;
      assert line[|u|..] != [] ==> line[|u|..][0] == line[|u|];
      assert u[|digits|] == line[|digits|] == extension[0] && HexDigit(u[|digits|]) == None && u[|digits|] in u;
      SizeIs(u);
    }
  }

  lemma LineRead(digits: seq<byte>, extension: seq<byte>, rest: seq<byte>)
    requires Digits(digits) && Extension(extension) && Hex(digits) < WIDTH
    ensures ReadLine(digits + extension + CRLF + rest)
         == if Tight(extension) then Some(Line(|digits| + |extension| + 2, Hex(digits))) else None
  {
    hide FindCrlf, UpTo, Size, Hex, Digits, NoCrlf, Tight;
    var line := digits + extension;
    SizeLine(digits, extension);
    FindAfter(line, rest);
    assert (line + CRLF + rest)[..|line|] == line;
    SizeRead(digits, extension);
  }

  lemma ChunkRead(c: Chunk, tail: seq<byte>)
    requires GoodChunk(c) && |c.data| <= LONGEST
    ensures Decode(ChunkBytes(c) + tail)
         == if !Tight(c.extension) then None
            else match Decode(tail)
                 case None => None
                 case Some(r) => Some(Decoded(c.data + r.data, |ChunkBytes(c)| + r.length))
  {
    hide ReadLine, Hex, Digits, Tight, Trailer, Extension;
    var s := ChunkBytes(c) + tail;
    var at, size := |c.digits| + |c.extension| + 2, |c.data|;
    assert s == c.digits + c.extension + CRLF + (c.data + CRLF + tail);
    LineRead(c.digits, c.extension, c.data + CRLF + tail);
    assert s[at..at + size] == c.data && s[at + size..at + size + 2] == CRLF && s[at + size + 2..] == tail;
  }

  lemma LastRead(b: Sent, rest: seq<byte>)
    requires Valid(b) && b.chunks == []
    ensures Decode(Bytes(b) + rest) == if Tight(b.extension) then Some(Decoded([], |Bytes(b)|)) else None
  {
    hide ReadLine, Hex, Digits, Tight, Trailer, Extension, Lines, NoCrlf;
    var s := Bytes(b) + rest;
    assert s == b.zeros + b.extension + CRLF + (Lines(b.trailer) + rest);
    LineRead(b.zeros, b.extension, Lines(b.trailer) + rest);
    assert s[|b.zeros| + |b.extension| + 2..] == Lines(b.trailer) + rest;
    LinesBack(b.trailer, rest);
  }

  /** A valid encoding, whatever comes behind it, decodes to its data, from
      exactly its bytes, when no extension has a space before its semicolon; and
      it is refused otherwise. */
  lemma {:induction false} DecodeSent(b: Sent, rest: seq<byte>)
    requires Valid(b) && |Bytes(b)| <= LONGEST
    ensures Decode(Bytes(b) + rest) == if AllTight(b) then Some(Decoded(Data(b.chunks), |Bytes(b)|)) else None
    decreases |b.chunks|
  {
    hide Decode, GoodChunk, Digits, Hex, Tight, Extension, NoCrlf;
    if b.chunks == [] {
      LastRead(b, rest);
    } else {
      var c, tail := b.chunks[0], b.(chunks := b.chunks[1..]);
      assert c in b.chunks && b.chunks == [c] + b.chunks[1..];
      assert Bytes(b) + rest == ChunkBytes(c) + (Bytes(tail) + rest);
      ChunkRead(c, Bytes(tail) + rest);
      DecodeSent(tail, rest);
      assert AllTight(b) <==> Tight(c.extension) && AllTight(tail);
    }
  }

  // ---- What is decoded is valid -----------------------------------------------------------------

  lemma {:induction false} TrailerMore(s: seq<byte>, more: seq<byte>)
    requires Trailer(s).Some?
    ensures Trailer(s + more) == Trailer(s)
    decreases |s|
  {
    hide FindCrlf;
    FindMore(s, more);
    var end := FindCrlf(s).value;
    if end > 0 {
      assert (s + more)[end + 2..] == s[end + 2..] + more;
      TrailerMore(s[end + 2..], more);
    }
  }

  lemma LineMore(s: seq<byte>, more: seq<byte>)
    requires ReadLine(s).Some?
    ensures ReadLine(s + more) == ReadLine(s)
  {
    hide FindCrlf, UpTo, Size;
    FindMore(s, more);
    var end := FindCrlf(s).value;
    assert (s + more)[..end] == s[..end];
  }

  /** What was decoded stays so whatever comes behind it. */
  lemma {:induction false} DecodeMore(s: seq<byte>, more: seq<byte>)
    requires Decode(s).Some?
    ensures Decode(s + more) == Decode(s)
    decreases |s|
  {
    hide ReadLine, Trailer;
    LineMore(s, more);
    var line := ReadLine(s).value;
    var at, end := line.at, line.at + line.size;
    if line.size == 0 {
      assert (s + more)[at..] == s[at..] + more;
      TrailerMore(s[at..], more);
    } else {
      assert (s + more)[at..end] == s[at..end] && (s + more)[end..end + 2] == s[end..end + 2];
      assert (s + more)[end + 2..] == s[end + 2..] + more;
      DecodeMore(s[end + 2..], more);
    }
  }

  /** No proper prefix of a valid encoding is accepted. */
  lemma PrefixRefused(b: Sent, n: nat)
    requires Valid(b) && |Bytes(b)| <= LONGEST && n < |Bytes(b)|
    ensures Decode(Bytes(b)[..n]) == None
  {
    hide Decode, Valid, AllTight, Bytes;
    var p := Bytes(b)[..n];
    if Decode(p).Some? {
      DecodeMore(p, Bytes(b)[n..]);
      assert p + Bytes(b)[n..] == Bytes(b) == Bytes(b) + [];
      DecodeSent(b, []);
    }
  }

  lemma {:induction false} TrailerShape(s: seq<byte>) returns (lines: seq<seq<byte>>)
    requires Trailer(s).Some?
    ensures (forall line | line in lines :: line != [] && NoCrlf(line))
    ensures Lines(lines) == s[..Trailer(s).value]
    decreases |s|
  {
    hide FindCrlf, NoCrlf;
    Found(s);
    var end := FindCrlf(s).value;
    if end == 0 {
      lines := [];
      assert s[..2] == s[0..2];
    } else {
      var rest := TrailerShape(s[end + 2..]);
      lines := [s[..end]] + rest;
      assert lines[1..] == rest;
      var n := Trailer(s).value;
      assert s[..n] == s[..end] + s[end..end + 2] + s[end + 2..][..n - end - 2];
    }
  }

  /** The parts of a size line. */
  lemma LineShape(s: seq<byte>) returns (digits: seq<byte>, extension: seq<byte>)
    requires ReadLine(s).Some?
    ensures Digits(digits) && Hex(digits) == ReadLine(s).value.size && Extension(extension) && Tight(extension)
    ensures s[..ReadLine(s).value.at] == digits + extension + CRLF
  {
    hide FindCrlf, UpTo, Size, NoCrlf, Hex;
    Found(s);
    var end := FindCrlf(s).value;
    var line := s[..end];
    digits := UpTo(line);
    UpToSplit(line);
    extension := line[|digits|..];
    SizeIs(digits);
    LineSplit(line, digits, extension);
    assert s[..end + 2] == line + s[end..end + 2];
  }

  /** Whatever is accepted starts with a valid encoding of what is made of it:
      nothing but the grammar is accepted. */
  lemma {:induction false} DecodeShape(s: seq<byte>) returns (b: Sent)
    requires Decode(s).Some?
    ensures Valid(b) && AllTight(b)
    ensures Bytes(b) == s[..Decode(s).value.length] && Data(b.chunks) == Decode(s).value.data
    decreases |s|
  {
    hide ReadLine, Trailer, Valid, AllTight, Bytes, Data, GoodChunk, Digits, Extension, Hex, Tight, NoCrlf, ChunkBytes;
    var digits, extension := LineShape(s);
    var line := ReadLine(s).value;
    var at, end, n := line.at, line.at + line.size, Decode(s).value.length;
    if line.size == 0 {
      var lines := TrailerShape(s[at..]);
      b := Sent([], digits, extension, lines);
      assert s[..n] == s[..at] + s[at..][..n - at];
      ShapeLast(b);
    } else {
      var rest := DecodeShape(s[end + 2..]);
      var c := Chunk(digits, extension, s[at..end]);
      b := rest.(chunks := [c] + rest.chunks);
      assert s[end + 2..][..n - end - 2] == s[end + 2..n];
      IsGood(c);
      ShapeMore(s, c, rest, at, end, n);
    }
  }

  lemma ShapeLast(b: Sent)
    requires b.chunks == [] && Digits(b.zeros) && Hex(b.zeros) == 0 && Extension(b.extension) && Tight(b.extension)
    requires forall line | line in b.trailer :: line != [] && NoCrlf(line)
    ensures Valid(b) && AllTight(b) && Data(b.chunks) == []
    ensures Bytes(b) == b.zeros + b.extension + CRLF + Lines(b.trailer)
  {
  }

  lemma IsGood(c: Chunk)
    requires Digits(c.digits) && Extension(c.extension) && Hex(c.digits) == |c.data| > 0
    ensures GoodChunk(c)
  {
  }

  lemma ShapeMore(s: seq<byte>, c: Chunk, rest: Sent, at: nat, end: nat, n: nat)
    requires GoodChunk(c) && Tight(c.extension) && Valid(rest) && AllTight(rest)
    requires at <= end && end + 2 <= n <= |s| && s[..at] == c.digits + c.extension + CRLF && s[at..end] == c.data
    requires s[end..end + 2] == CRLF
    requires Bytes(rest) == s[end + 2..n]
    ensures
      var b := rest.(chunks := [c] + rest.chunks);
      Valid(b) && AllTight(b) && Bytes(b) == s[..n] && Data(b.chunks) == c.data + Data(rest.chunks)
  {
    hide GoodChunk, Digits, Extension, Tight, NoCrlf, Hex, ChunkBytes, Lines;
    var b := rest.(chunks := [c] + rest.chunks);
    assert b.chunks[1..] == rest.chunks && b.(chunks := rest.chunks) == rest;
    FiveParts(s, c, at, end, n);
  }

  lemma FiveParts(s: seq<byte>, c: Chunk, at: nat, end: nat, n: nat)
    requires at <= end && end + 2 <= n <= |s| && s[..at] == c.digits + c.extension + CRLF && s[at..end] == c.data
    requires s[end..end + 2] == CRLF
    ensures ChunkBytes(c) + s[end + 2..n] == s[..n]
  {
    assert s[..n] == s[..at] + s[at..end] + s[end..end + 2] + s[end + 2..n];
  }

  lemma LineSplit(line: seq<byte>, digits: seq<byte>, extension: seq<byte>)
    requires NoCrlf(line) && digits <= line && extension == line[|digits|..] && Tight(extension)
    ensures line == digits + extension && Extension(extension)
  {
    forall i | 0 <= i < |extension| - 1
      ensures !(extension[i] == CR && extension[i + 1] == LF)
    {
      var k := |digits| + i;
      assert extension[i] == line[k] && extension[i + 1] == line[k + 1];
    }
    if extension != [] {
      var n: nat := 0;
      assert n < |extension| && extension[n] == SEMICOLON;
    }
  }

  const SPACED: Chunk := Chunk([53], [32, 59, 120], [104, 101, 108, 108, 111])

  /** A valid encoding that is refused: "5 ;x", a space before the extension. */
  lemma SpaceRefused()
    ensures
      var b := Sent([SPACED], [48], [], []);
      Valid(b) && Decode(Bytes(b)) == None
  {
    hide Decode, GoodChunk, Bytes, ChunkBytes;
    var b := Sent([SPACED], [48], [], []);
    SpacedGood();
    assert Valid(b) by {
      assert Hex([48]) == 0 by {
        assert [48][..0] == [];
      }
    }
    SmallSent(b, SPACED);
    DecodeSent(b, []);
    assert Bytes(b) + [] == Bytes(b);
    assert SPACED in b.chunks && !Tight(SPACED.extension);
  }

  lemma SpacedGood()
    ensures GoodChunk(SPACED) && |ChunkBytes(SPACED)| == 13
  {
    assert Hex([53]) == 5 by {
      assert [53][..0] == [];
    }
    var e := SPACED.extension;
    assert Extension(e) by {
      var n: nat := 1;
      assert n < |e| && e[n] == SEMICOLON && e[0] == 32;
    }
  }

  lemma SmallSent(b: Sent, c: Chunk)
    requires b.chunks == [c] && b.trailer == []
    ensures |Bytes(b)| == |ChunkBytes(c)| + |b.zeros| + |b.extension| + 4
  {
    assert b.chunks[1..] == [];
  }

  // ---- The loops --------------------------------------------------------------------------------

  /** The first CRLF of what is left from a place, counted from the start. */
  function FindFrom(bytes: seq<byte>, from: nat): (r: Option<nat>)
    requires from <= |bytes|
    ensures r.Some? ==> from <= r.value <= |bytes| - 2
  {
    match FindCrlf(bytes[from..])
    case None => None
    case Some(offset) => Some(from + offset)
  }

  /** The size some digits give, with the overflow checked. */
  method ReadSize(digits: seq<byte>) returns (size: Option<nat>)
    ensures size == Size(digits)
  {
    var value: nat := 0;
    for i := 0 to |digits|
      invariant Size(digits[..i]) == Some(value)
    {
      assert digits[..i + 1][..i] == digits[..i];
      var digit := HexDigit(digits[i]);
      if digit == None || 16 * value + digit.value >= WIDTH {
        assert Size(digits[..i + 1]) == None;
        SizeFails(digits, i + 1);
        return None;
      }
      value := 16 * value + digit.value;
    }
    assert digits[..|digits|] == digits;
    size := Some(value);
  }

  lemma {:induction false} SizeFails(digits: seq<byte>, i: nat)
    requires i <= |digits| && Size(digits[..i]) == None
    ensures Size(digits) == None
    decreases |digits|
  {
    if i < |digits| {
      assert digits[..|digits| - 1][..i] == digits[..i];
      SizeFails(digits[..|digits| - 1], i);
    } else {
      assert digits[..i] == digits;
    }
  }

  /** Whether the trailer section from `from` on is complete. */
  method SkipTrailer(body: seq<byte>, from: nat) returns (complete: bool)
    requires from <= |body|
    ensures complete <==> Trailer(body[from..]).Some?
  {
    hide FindCrlf;
    var at := from;
    while true
      invariant from <= at <= |body|
      invariant Trailer(body[from..]).Some? <==> Trailer(body[at..]).Some?
      decreases |body| - at
    {
      var end := FindFrom(body, at);
      if end == None {
        return false;
      }
      if end.value == at {
        return true;
      }
      assert body[at..][end.value - at + 2..] == body[end.value + 2..];
      at := end.value + 2;
    }
  }

  /** The size line at a place: where what follows it starts, and the size. */
  method ReadLineAt(body: seq<byte>, at: nat) returns (line: Option<Line>)
    requires at <= |body|
    ensures line == match ReadLine(body[at..]) case None => None case Some(l) => Some(Line(at + l.at, l.size))
  {
    hide FindCrlf, UpTo, Size;
    var lineEnd := FindFrom(body, at);
    if lineEnd == None {
      return None;
    }
    assert body[at..][..lineEnd.value - at] == body[at..lineEnd.value];
    var digits := UpTo(body[at..lineEnd.value]);
    if digits == [] {
      return None;
    }
    var size := ReadSize(digits);
    if size == None {
      return None;
    }
    line := Some(Line(lineEnd.value + 2, size.value));
  }

  /** What was decoded of the rest, with what came before. */
  function Prepended(out: seq<byte>, at: nat, rest: Option<Decoded>): Option<Decoded> {
    match rest
    case None => None
    case Some(d) => Some(Decoded(out + d.data, at + d.length))
  }

  /** The loop gives what `Decode` gives, and refuses what it refuses. */
  method Dechunk(body: seq<byte>) returns (r: Option<seq<byte>>)
    ensures r == match Decode(body) case None => None case Some(d) => Some(d.data)
  {
    hide ReadLine, Trailer, Decode;
    var out, at: nat := [], 0;
    Unprepended(body);
    while true
      invariant at <= |body| && Decode(body) == Prepended(out, at, Decode(body[at..]))
      decreases |body| - at
    {
      DecodeStep(body, at, out);
      var line := ReadLineAt(body, at);
      if line == None {
        return None;
      }
      var next, size := line.value.at, line.value.size;
      if size == 0 {
        var complete := SkipTrailer(body, next);
        return if complete then Some(out) else None;
      }
      var end := next + size;
      if end + 2 > |body| || body[end..end + 2] != CRLF {
        return None;
      }
      out := out + body[next..end];
      at := end + 2;
    }
  }

  lemma Unprepended(body: seq<byte>)
    ensures Decode(body) == Prepended([], 0, Decode(body[0..]))
  {
    hide Decode;
    assert body[0..] == body;
    if Decode(body).Some? {
      assert [] + Decode(body).value.data == Decode(body).value.data;
    }
  }

  /** One round of the loop. */
  lemma DecodeStep(body: seq<byte>, at: nat, out: seq<byte>)
    requires at <= |body|
    ensures
      var all := Prepended(out, at, Decode(body[at..]));
      match ReadLine(body[at..])
      case None => all == None
      case Some(l) =>
        var next, end := at + l.at, at + l.at + l.size;
        if l.size == 0 then
          if Trailer(body[next..]) == None then all == None else all.Some? && all.value.data == out
        else if end + 2 > |body| || body[end..end + 2] != CRLF then all == None
        else all == Prepended(out + body[next..end], end + 2, Decode(body[end + 2..]))
  {
    hide ReadLine, Trailer;
    var s := body[at..];
    if ReadLine(s).Some? {
      var l := ReadLine(s).value;
      var next, end := at + l.at, at + l.at + l.size;
      assert s[l.at..] == body[next..];
      if l.size == 0 {
        assert out + [] == out;
      } else if end + 2 <= |body| {
        DecodeParts(body, at, l, out);
      }
    }
  }

  lemma DecodeParts(body: seq<byte>, at: nat, l: Line, out: seq<byte>)
    requires at <= |body| && at + l.at + l.size + 2 <= |body|
    ensures
      var s, end := body[at..], l.at + l.size;
      && s[l.at..end] == body[at + l.at..at + end]
      && s[end..end + 2] == body[at + end..at + end + 2]
      && s[end + 2..] == body[at + end + 2..]
      && forall rest: seq<byte> :: out + (s[l.at..end] + rest) == out + s[l.at..end] + rest
  {
  }

  // ---- Digits -----------------------------------------------------------------------------------

  /** The hexadecimal digits, in either case. */
  lemma HexDigitIs(b: byte, n: nat)
    ensures HexDigit(b) == Some(n) <==>
              n < 16 && (b == "0123456789abcdef"[n] as int || b == "0123456789ABCDEF"[n] as int)
  {
    var low, high := "0123456789abcdef", "0123456789ABCDEF";
    if n < 10 {
      assert low[n] as int == 48 + n == high[n] as int;
    } else if n < 16 {
      assert low[n] as int == 87 + n && high[n] as int == 55 + n;
    }
  }
}
