/** The ring between the interrupt handlers, which write, and the main loop,
    which reads. A handler runs whole, with interrupts off; any number of them
    may run between two atomic steps of a `Pop`. */
module EventRing {
  import opened Base

  datatype Event = Second | Key(code: byte) | Mouse(part: byte)

  const SIZE: nat := 512
  /** One slot stays empty: it tells a full ring from an empty one. */
  const ROOM: nat := 511

  function Encode(event: Event): (word: nat)
    ensures word < 0x400
  {
    match event
    case Second => 0x100
    case Key(code) => 0x200 + code
    case Mouse(part) => 0x300 + part
  }

  function Decode(word: nat): Option<Event> {
    match word / 0x100
    case 1 => Some(Second)
    case 2 => Some(Key(word % 0x100))
    case 3 => Some(Mouse(word % 0x100))
    case _ => None
  }

  /** Words and events match one to one, but for the unused byte of `Second`. */
  lemma DecodeEncode(event: Event, word: nat)
    ensures Decode(Encode(event)) == Some(event)
    ensures Decode(word) == Some(event) ==> word == Encode(event) || (event == Second && word / 0x100 == 1)
    ensures Decode(word) == None <==> word < 0x100 || word >= 0x400
  {
  }

  // ---- What a queue does with a burst of events -------------------------------------------------

  /** A queue after some events were offered: a full one refuses. */
  function Taken(queue: seq<Event>, events: seq<Event>): (r: seq<Event>)
    ensures queue <= r
    decreases |events|
  {
    if events == [] then queue
    else Taken(if |queue| < ROOM then queue + [events[0]] else queue, events[1..])
  }

  /** What fits is taken, in order, and nothing that waited is lost. */
  lemma {:induction false} TakenIs(queue: seq<Event>, events: seq<Event>)
    requires |queue| <= ROOM
    ensures Taken(queue, events) == queue + events[..Least(|events|, ROOM - |queue|)]
    decreases |events|
  {
    if events == [] {
    } else if |queue| < ROOM {
      TakenIs(queue + [events[0]], events[1..]);
      FirstMoved(queue, events, Least(|events|, ROOM - |queue|));
    } else {
      TakenIs(queue, events[1..]);
    }
  }

  lemma FirstMoved(queue: seq<Event>, events: seq<Event>, n: nat)
    requires 0 < n <= |events|
    ensures queue + events[..n] == queue + [events[0]] + events[1..][..n - 1]
  {
  }

  function Least(a: nat, b: nat): nat {
    if a < b then a else b
  }

  lemma TakenNone(queue: seq<Event>)
    ensures Taken(queue, []) == queue
  {
  }

  /** Two bursts are one. */
  lemma {:induction false} TakenTwice(queue: seq<Event>, a: seq<Event>, b: seq<Event>)
    ensures Taken(Taken(queue, a), b) == Taken(queue, a + b)
    decreases |a|
  {
    if a == [] {
      assert a + b == b;
    } else {
      assert (a + b)[1..] == a[1..] + b;
      TakenTwice(if |queue| < ROOM then queue + [a[0]] else queue, a[1..], b);
    }
  }

  // ---- Slots ------------------------------------------------------------------------------------

  /** The slot `i` places after TAIL, and how many are in use. */
  function Slot(tail: nat, i: nat): (r: nat)
    ensures r < SIZE
  {
    (tail + i) % SIZE
  }

  /** The place after a place. */
  function After(i: nat): (r: nat)
    ensures r < SIZE
  {
    (i + 1) % SIZE
  }

  function Used(head: nat, tail: nat): nat {
    (head + (SIZE - tail % SIZE)) % SIZE
  }

  /** The slot written is none of those that wait. */
  lemma Written(head: nat, tail: nat, n: nat)
    requires head < SIZE && tail < SIZE && n == Used(head, tail) && After(head) != tail
    ensures n < ROOM && Slot(tail, n) == head && Used(After(head), tail) == n + 1
    ensures forall i | 0 <= i < n :: Slot(tail, i) != head
  {
    assert n == if head >= tail then head - tail else head + SIZE - tail;
  }

  lemma Full(head: nat, tail: nat)
    requires head < SIZE && tail < SIZE && After(head) == tail
    ensures Used(head, tail) == ROOM
  {
  }

  lemma Empty(head: nat, tail: nat)
    requires head < SIZE && tail < SIZE
    ensures head == tail <==> Used(head, tail) == 0
  {
  }

  lemma SlotZero(tail: nat)
    requires tail < SIZE
    ensures Slot(tail, 0) == tail
  {
  }

  lemma Freed(head: nat, tail: nat)
    requires head < SIZE && tail < SIZE && head != tail
    ensures Used(head, After(tail)) == Used(head, tail) - 1
  {
  }

  lemma NextSlot(tail: nat, i: nat)
    requires tail < SIZE
    ensures Slot(After(tail), i) == Slot(tail, i + 1)
  {
  }

  // ---- The ring ---------------------------------------------------------------------------------

  /** What may happen between the atomic steps of one `Pop`: before HEAD is
      read, before the slot is read, before TAIL is stored, and after. */
  datatype Bursts = Bursts(start: seq<Event>, checked: seq<Event>, read: seq<Event>, end: seq<Event>)

  datatype Action = Handlers(events: seq<Event>) | Reader(bursts: Bursts)

  /** What the loop was given, what waits, and how many events were offered. */
  datatype Progress = Progress(given: seq<Event>, queue: seq<Event>, offered: nat)

  /** One action: a burst of handlers, or a `Pop` with handlers in it. */
  function Acted(p: Progress, action: Action): Progress {
    match action
    case Handlers(events) => Progress(p.given, Taken(p.queue, events), p.offered + |events|)
    case Reader(b) =>
      var waiting := Taken(p.queue, b.start);
      if waiting == [] then Progress(p.given, [], p.offered + |b.start|)
      else Progress(p.given + [waiting[0]], Taken(Taken(waiting, b.checked + b.read)[1..], b.end),
                    p.offered + |b.start| + |b.checked| + |b.read| + |b.end|)
  }

  /** Any schedule of actions, from what waits. */
  function Played(queue: seq<Event>, schedule: seq<Action>): Progress {
    if schedule == [] then Progress([], queue, 0)
    else Acted(Played(queue, schedule[..|schedule| - 1]), schedule[|schedule| - 1])
  }

  class Ring {
    var ring: array<nat>
    var head: nat
    var tail: nat
    var lost: nat
    /** The events that wait, oldest first. */
    ghost var queue: seq<Event>
    /** Every event the ring took, and every one the loop was given. */
    ghost var accepted: seq<Event>
    ghost var popped: seq<Event>
    ghost var refused: nat

    ghost predicate Valid()
      reads this, ring
    {
      && ring.Length == SIZE && head < SIZE && tail < SIZE
      && |queue| == Used(head, tail)
      && (forall i | 0 <= i < |queue| :: ring[Slot(tail, i)] == Encode(queue[i]))
      && popped + queue == accepted
      && lost == refused % 0x1_0000_0000
    }

    constructor ()
      ensures Valid() && fresh(ring) && queue == [] && accepted == [] && popped == [] && refused == 0
    {
      ring := new nat[SIZE](_ => 0);
      head, tail, lost := 0, 0, 0;
      queue, accepted, popped, refused := [], [], [], 0;
    }

    /** The event goes behind those that wait, when there are fewer than ROOM; otherwise
        nothing changes but the count of refused ones. */
    method Push(event: Event)
      requires Valid()
      modifies this`head, this`lost, this`queue, this`accepted, this`refused, ring
      ensures Valid()
      ensures queue == Taken(old(queue), [event])
      ensures old(queue) <= queue && accepted == old(accepted) + queue[|old(queue)|..]
      ensures |old(queue)| < ROOM ==> |queue| == |old(queue)| + 1 && refused == old(refused)
      ensures |old(queue)| >= ROOM ==> |queue| == |old(queue)| && refused == old(refused) + 1
    {
      hide After, Slot, Used, Encode;
      var next := After(head);
      if next == tail {
        Full(head, tail);
        lost := (lost + 1) % 0x1_0000_0000;
        refused := refused + 1;
        return;
      }
      Written(head, tail, |queue|);
      ring[head] := Encode(event);
      queue := queue + [event];
      accepted := accepted + [event];
      head := next;
    }

    /** The handlers of a burst, one after the other. */
    method Interrupts(events: seq<Event>)
      requires Valid()
      modifies this`head, this`lost, this`queue, this`accepted, this`refused, ring
      ensures Valid()
      ensures queue == Taken(old(queue), events)
      ensures old(queue) <= queue && accepted == old(accepted) + queue[|old(queue)|..]
      ensures refused + |accepted| == old(refused + |accepted|) + |events|
    {
      hide Taken, Valid;
      TakenNone(queue);
      for i := 0 to |events|
        invariant Valid()
        invariant queue == Taken(old(queue), events[..i])
        invariant old(queue) <= queue && accepted == old(accepted) + queue[|old(queue)|..]
        invariant refused + |accepted| == old(refused + |accepted|) + i
      {
        ghost var before := queue;
        TakenTwice(old(queue), events[..i], [events[i]]);
        assert events[..i + 1] == events[..i] + [events[i]];
        Push(events[i]);
        assert queue[|old(queue)|..] == before[|old(queue)|..] + queue[|before|..];
      }
      assert events[..|events|] == events;
    }

    /** The oldest event, read in separate steps with handlers between them:
        as if it were taken at once, when HEAD is read or when TAIL is stored. */
    method Pop(bursts: Bursts) returns (r: Option<Event>)
      requires Valid()
      modifies this, ring
      ensures Valid() && ring == old(ring)
      ensures
        var waiting := Taken(old(queue), bursts.start);
        if |waiting| == 0 then r == None && queue == [] && popped == old(popped)
        else
          && r == Some(waiting[0])
          && popped == old(popped) + [waiting[0]]
          && queue == Taken(Taken(waiting, bursts.checked + bursts.read)[1..], bursts.end)
      ensures old(accepted) <= accepted
      ensures refused + |accepted| == old(refused + |accepted|) + |bursts.start|
                                      + if r == None then 0 else |bursts.checked| + |bursts.read| + |bursts.end|
    {
      hide Valid, Encode, Decode, Taken;
      var at := tail;
      Interrupts(bursts.start);
      Indices();
      if at == head {
        return None;
      }
      ghost var waiting := queue;
      Interrupts(bursts.checked);
      TakenTwice(waiting, bursts.checked, bursts.read);
      Indices();
      var word := ring[at];
      DecodeEncode(waiting[0], word);
      Interrupts(bursts.read);
      StoreTail(at);
      Interrupts(bursts.end);
      r := Decode(word);
    }

    lemma Indices()
      requires Valid()
      ensures ring.Length == SIZE && tail < SIZE && (tail == head <==> queue == [])
      ensures queue != [] ==> ring[tail] == Encode(queue[0])
    {
      hide Encode, Used, After, Slot;
      Empty(head, tail);
      SlotZero(tail);
    }

    /** The slot at TAIL is given back. */
    method StoreTail(at: nat)
      requires Valid() && at == tail && queue != []
      modifies this`tail, this`queue, this`popped
      ensures Valid() && queue == old(queue)[1..] && popped == old(popped) + [old(queue)[0]]
    {
      hide After, Slot, Used, Encode;
      Empty(head, tail);
      Freed(head, tail);
      forall i | 0 <= i < |queue[1..]|
        ensures ring[Slot(After(at), i)] == Encode(queue[1..][i])
      {
        NextSlot(at, i);
      }
      tail := After(at);
      popped := popped + [queue[0]];
      queue := queue[1..];
    }

    /** Any run of the machine does what its schedule says, action by action:
        what the loop was given, followed by what waits, is what the ring took, in
        order, and every other event offered was counted. */
    method Run(schedule: seq<Action>) returns (given: seq<Event>)
      requires Valid() && popped == []
      modifies this, ring
      ensures Valid() && ring == old(ring)
      ensures given == popped == Played(old(queue), schedule).given && queue == Played(old(queue), schedule).queue
      ensures given + queue == accepted && old(queue) <= accepted
      ensures refused + |accepted| == old(refused + |accepted|) + Played(old(queue), schedule).offered
      ensures lost == refused % 0x1_0000_0000
    {
      hide Taken;
      given := [];
      assert old(queue) == accepted;
      for i := 0 to |schedule|
        invariant Valid() && ring == old(ring) && given == popped && old(queue) <= accepted
        invariant given == Played(old(queue), schedule[..i]).given && queue == Played(old(queue), schedule[..i]).queue
        invariant refused + |accepted| == old(refused + |accepted|) + Played(old(queue), schedule[..i]).offered
      {
        assert schedule[..i + 1][..i] == schedule[..i];
        match schedule[i] {
          case Handlers(events) =>
            Interrupts(events);
          case Reader(bursts) =>
            var r := Pop(bursts);
            if r.Some? {
              given := given + [r.value];
            }
        }
      }
      assert schedule[..|schedule|] == schedule;
    }
  }
}
