/** The ring buffers of the CAN driver: written at head, read at tail, empty when the two are equal and full when head
    is one behind tail.
*/
module RingBuffer {

  import opened Options

  const MAXRING := 1024

  function Next(n: nat): nat {
    (n + 1) % MAXRING
  }

  /** RING_SIZE. */
  function SizeOf(head: nat, tail: nat): int {
    if head - tail >= 0 then head - tail else MAXRING - tail + head
  }

  /** RING_ROOM. */
  function RoomOf(head: nat, tail: nat): int {
    if tail - head <= 0 then MAXRING - head + tail - 1 else tail - head - 1
  }

  /** What a ring holds, oldest first. */
  function Queued<T>(buf: seq<T>, head: nat, tail: nat): seq<T>
    requires |buf| == MAXRING && head < MAXRING && tail < MAXRING
  {
    if tail <= head then buf[tail..head] else buf[tail..] + buf[..head]
  }

  /** The size macro counts what is held, the room macro how much more fits, and together they are always one less
      than the buffer. */
  lemma SizeAndRoom<T>(buf: seq<T>, head: nat, tail: nat)
    requires |buf| == MAXRING && head < MAXRING && tail < MAXRING
    ensures SizeOf(head, tail) == |Queued(buf, head, tail)|
    ensures SizeOf(head, tail) + RoomOf(head, tail) == MAXRING - 1
    ensures RoomOf(head, tail) == 0 <==> Next(head) == tail
    ensures SizeOf(head, tail) == 0 <==> head == tail
  {
  }

  lemma QueuedAt<T>(buf: seq<T>, head: nat, tail: nat, k: nat)
    requires |buf| == MAXRING && head < MAXRING && tail < MAXRING && k < |Queued(buf, head, tail)|
    ensures Queued(buf, head, tail)[k] == buf[if tail + k < MAXRING then tail + k else tail + k - MAXRING]
  {
  }

  lemma TakeFront<T>(a: seq<T>, b: seq<T>)
    requires b != []
    ensures a + [b[0]] + b[1..] == a + b
  {
  }

  class Ring<T(0)> {
    const buf: array<T>
    var head: nat
    var tail: nat
    ghost var contents: seq<T>

    ghost predicate Valid()
      reads this, buf
    {
      && buf.Length == MAXRING && head < MAXRING && tail < MAXRING
      && contents == Queued(buf[..], head, tail)
    }

    constructor ()
      ensures Valid() && contents == [] && fresh(buf)
    {
      buf := new T[MAXRING];
      head, tail, contents := 0, 0, [];
    }

    lemma Bounded()
      requires Valid()
      ensures |contents| <= MAXRING - 1
      ensures |contents| == MAXRING - 1 <==> Next(head) == tail
      ensures contents == [] <==> head == tail
    {
      SizeAndRoom(buf[..], head, tail);
    }

    /** Put x at the head unless the ring is full (char_to_ring, pkt_to_ring). */
    method In(x: T) returns (ok: bool)
      requires Valid()
      modifies this`head, this`contents, buf
      ensures Valid()
      ensures ok <==> |old(contents)| < MAXRING - 1
      ensures contents == if ok then old(contents) + [x] else old(contents)
    {
      Bounded();
      ok := Next(head) != tail;
      if ok {
        buf[head] := x;
        head := Next(head);
        contents := contents + [x];
      }
    }

    /** Take the value at the tail unless the ring is empty (ring_to_char, ring_to_pkt). */
    method Out() returns (r: Option<T>)
      requires Valid()
      modifies this`tail, this`contents
      ensures Valid()
      ensures old(contents) == [] ==> r.None? && contents == []
      ensures old(contents) != [] ==> r == Some(old(contents)[0]) && contents == old(contents)[1..]
    {
      Bounded();
      if head == tail {
        r := None;
      } else {
        r := Some(buf[tail]);
        tail := Next(tail);
        contents := contents[1..];
      }
    }

    method Clear()
      requires Valid()
      modifies this`head, this`tail, this`contents
      ensures Valid() && contents == []
    {
      head, tail, contents := 0, 0, [];
    }

    method Size() returns (n: nat)
      requires Valid()
      ensures n == |contents|
    {
      SizeAndRoom(buf[..], head, tail);
      n := if head >= tail then head - tail else MAXRING - tail + head;
    }

    method Room() returns (n: nat)
      requires Valid()
      ensures n == MAXRING - 1 - |contents|
    {
      SizeAndRoom(buf[..], head, tail);
      n := if tail <= head then MAXRING - head + tail - 1 else tail - head - 1;
    }
  }
}
