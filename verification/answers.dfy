/** What is made of an answer, once the conversation is over. */
module Answers {
  import opened Base
  import opened Chunked

  const MAX_REDIRECTS: nat := 5

  /** What the headers say: `location` is the value of that header. */
  datatype Head = Head(code: nat, location: Option<string>, chunked: bool, length: Option<nat>)

  /** How headers are read, and addresses resolved. */
  datatype Readers = Readers(head: seq<byte> -> Head, resolve: string -> Option<string>)

  datatype Outcome = Page(body: seq<byte>) | Follow(next: string) | GivenUp

  const BLANK: seq<byte> := [13, 10, 13, 10]

  /** An empty line after a line, at a place. */
  predicate BlankAt(s: seq<byte>, i: nat) {
    i + 4 <= |s| && s[i] == 13 && s[i + 1] == 10 && s[i + 2] == 13 && s[i + 3] == 10
  }

  /** Where the first empty line is. */
  function FindBlank(s: seq<byte>): (r: Option<nat>)
    ensures r.Some? ==> r.value + 4 <= |s|
  {
    if |s| < 4 then None
    else if BlankAt(s, 0) then Some(0)
    else
      match FindBlank(s[1..])
      case None => None
      case Some(at) => Some(at + 1)
  }

  lemma {:induction false} FirstBlank(s: seq<byte>)
    ensures match FindBlank(s)
            case None => forall i: nat :: !BlankAt(s, i)
            case Some(at) => BlankAt(s, at) && forall i: nat | i < at :: !BlankAt(s, i)
  {
    if |s| >= 4 && !BlankAt(s, 0) {
      FirstBlank(s[1..]);
      forall i: nat | i > 0
        ensures BlankAt(s, i) == BlankAt(s[1..], i - 1)
      {
      }
    }
  }

  predicate Redirects(code: nat) {
    code in {301, 302, 303, 307, 308}
  }

  /** The answer says to go on elsewhere, or to give up going on. */
  predicate Redirected(readers: Readers, head: Head, redirects: nat) {
    && Redirects(head.code) && head.location.Some?
    && (redirects >= MAX_REDIRECTS || readers.resolve(head.location.value).Some?)
  }

  /** The body, by its framing: chunks, or a length, or everything. */
  function Framed(head: Head, body: seq<byte>): Option<seq<byte>> {
    if head.chunked then
      match Decode(body)
      case None => None
      case Some(d) => Some(d.data)
    else if head.length.Some? then
      if |body| < head.length.value then None else Some(body[..head.length.value])
    else Some(body)
  }

  /** The status of an answer that has a head. */
  function CodeOf(readers: Readers, raw: seq<byte>): nat {
    var split := FindBlank(raw);
    if split == None then 0 else readers.head(raw[..split.value]).code
  }

  /** The answer `raw`, after `redirects` redirects. */
  function Answer(readers: Readers, raw: seq<byte>, limit: nat, redirects: nat): Outcome {
    match FindBlank(raw)
    case None => GivenUp
    case Some(split) =>
      var head := readers.head(raw[..split]);
      if Redirected(readers, head, redirects) then
        if redirects >= MAX_REDIRECTS then GivenUp else Follow(readers.resolve(head.location.value).value)
      else
        match Framed(head, raw[split + 4..])
        case None => GivenUp
        case Some(body) => if |body| > limit then GivenUp else Page(body)
  }

  /** The method: what to show, or where to go on. */
  method Finish(readers: Readers, raw: seq<byte>, limit: nat, redirects: nat) returns (r: Outcome, code: nat)
    ensures r == Answer(readers, raw, limit, redirects)
    ensures code == CodeOf(readers, raw)
  {
    hide FindBlank, Decode;
    code := 0;
    if raw == [] {
      Empty();
      return GivenUp, 0;
    }
    var split := FindBlank(raw);
    if split == None {
      return GivenUp, 0;
    }
    var head := readers.head(raw[..split.value]);
    var body := raw[split.value + 4..];
    code := head.code;
    if Redirects(code) && head.location.Some? {
      if redirects >= MAX_REDIRECTS {
        return GivenUp, code;
      }
      var next := readers.resolve(head.location.value);
      if next.Some? {
        return Follow(next.value), code;
      }
    }
    if head.chunked {
      var decoded := Dechunk(body);
      if decoded == None {
        return GivenUp, code;
      }
      body := decoded.value;
    } else if head.length.Some? {
      if |body| < head.length.value {
        return GivenUp, code;
      }
      body := body[..head.length.value];
    }
    if |body| > limit {
      return GivenUp, code;
    }
    r := Page(body);
  }

  lemma Empty()
    ensures FindBlank([]) == None
  {
  }

  // ---- What a cut answer gives ------------------------------------------------------------------

  /** An answer as it is sent: a head without an empty line, then its body. */
  ghost predicate Sends(stream: seq<byte>, head: seq<byte>, body: seq<byte>) {
    stream == head + BLANK + body && FindBlank(stream) == Some(|head|)
  }

  /** Reading the first `n` bytes of it: no head yet, or the head and the start
      of the body. */
  lemma Cut(stream: seq<byte>, head: seq<byte>, body: seq<byte>, n: nat)
    requires Sends(stream, head, body) && n <= |stream|
    ensures
      var got, start := stream[..n], |head| + 4;
      if n < start then FindBlank(got) == None
      else FindBlank(got) == Some(|head|) && got[..|head|] == head && got[start..] == body[..n - start]
  {
    hide FindBlank;
    var got, start := stream[..n], |head| + 4;
    FirstBlank(got);
    FirstBlank(stream);
    forall i: nat
      ensures BlankAt(got, i) == (BlankAt(stream, i) && i + 4 <= n)
    {
    }
    if n >= start {
      assert got[start..] == body[..n - start];
    }
  }

  /** With chunked framing, what is shown is the whole answer: the concatenated
      chunks, and only once every byte has come. */
  lemma ChunkedWhole(readers: Readers, stream: seq<byte>, head: seq<byte>, b: Sent, n: nat, limit: nat, redirects: nat)
    requires Sends(stream, head, Bytes(b)) && n <= |stream| <= LONGEST
    requires Valid(b) && AllTight(b) && readers.head(head).chunked
    ensures Answer(readers, stream[..n], limit, redirects).Page? <==>
              n == |stream| && |Data(b.chunks)| <= limit && !Redirected(readers, readers.head(head), redirects)
    ensures Answer(readers, stream[..n], limit, redirects).Page? ==>
              Answer(readers, stream[..n], limit, redirects) == Page(Data(b.chunks))
  {
    hide FindBlank, Decode, Valid, AllTight, Bytes;
    Cut(stream, head, Bytes(b), n);
    var start := |head| + 4;
    if n == |stream| {
      DecodeSent(b, []);
      assert Bytes(b)[..n - start] == Bytes(b) + [];
    } else if n >= start {
      PrefixRefused(b, n - start);
    }
  }

  /** With a length, what is shown is that many bytes of the body, once they have
      come. */
  lemma LengthWhole(readers: Readers, stream: seq<byte>, head: seq<byte>, body: seq<byte>, n: nat, limit: nat,
      redirects: nat)
    requires Sends(stream, head, body) && n <= |stream|
    requires !readers.head(head).chunked && readers.head(head).length.Some?
    ensures
      var length, answer := readers.head(head).length.value, Answer(readers, stream[..n], limit, redirects);
      && (answer.Page? <==>
            n >= |head| + 4 + length && length <= limit && !Redirected(readers, readers.head(head), redirects))
      && (answer.Page? ==> answer == Page(body[..length]))
  {
    hide FindBlank;
    Cut(stream, head, body, n);
  }

  /** With neither, whatever has come is shown: a cut answer passes for a whole
      one. */
  lemma UnframedCut(readers: Readers, stream: seq<byte>, head: seq<byte>, body: seq<byte>, n: nat, limit: nat,
      redirects: nat)
    requires Sends(stream, head, body) && |head| + 4 <= n <= |stream| && n - |head| - 4 <= limit
    requires !readers.head(head).chunked && readers.head(head).length == None
    requires !Redirected(readers, readers.head(head), redirects)
    ensures Answer(readers, stream[..n], limit, redirects) == Page(body[..n - |head| - 4])
    ensures Answer(readers, stream[..n], limit, redirects) == Page(body) <==> n == |stream|
  {
    hide FindBlank;
    Cut(stream, head, body, n);
  }

  /** Where a conversation goes on: where the answer's head points, when its code is
      one of the five of section 15.4 of RFC 9110 that say so, the place resolves,
      and fewer than five redirects led here. */
  lemma FollowsTo(readers: Readers, raw: seq<byte>, limit: nat, redirects: nat, next: string)
    ensures Answer(readers, raw, limit, redirects) == Follow(next) <==>
              && FindBlank(raw).Some? && redirects < 5
              && var head := readers.head(raw[..FindBlank(raw).value]);
                 && (head.code == 301 || head.code == 302 || head.code == 303 || head.code == 307 || head.code == 308)
                 && head.location.Some? && readers.resolve(head.location.value) == Some(next)
  {
    hide FindBlank, Framed;
  }
}
