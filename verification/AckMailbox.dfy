/** How a client's writer waits for the answer to its packet: the reader thread deposits every ACK and NAK it sees in a
    small array, and the writer looks through it for its target.
*/
module AckMailbox {
  import opened Options
  import opened CanPacket

  const ACKBUFLEN := 16

  datatype Entry = Entry(ext: ExtHeader, dat: Word)

  /** IS_OUR_ACKNAK: same object at the same address; the kind is not looked at. */
  predicate IsOurs(target: ExtHeader, e: Entry) {
    && e.ext.object_ == target.object_ && e.ext.cluster == target.cluster
    && e.ext.modno == target.modno && e.ext.node == target.node
  }

  /** What one wait on the condition variable ends with: whether it timed out, and what the reader deposited. */
  datatype Wake = Wake(timedOut: bool, deposited: seq<Entry>)

  datatype Answer = Waiting | TimedOut | Got(entry: Entry)

  /** The array after the reader deposits entries; what does not fit is dropped. */
  function Deposit(buf: seq<Entry>, es: seq<Entry>): (r: seq<Entry>)
    decreases |es|
  {
    if es == [] then buf
    else Deposit(if |buf| < ACKBUFLEN then buf + [es[0]] else buf, es[1..])
  }

  /** The last entry for the target. */
  function LastOurs(target: ExtHeader, buf: seq<Entry>): Answer {
    if buf == [] then Waiting
    else if IsOurs(target, buf[|buf| - 1]) then Got(buf[|buf| - 1])
    else LastOurs(target, buf[..|buf| - 1])
  }

  /** Looking through the array first if anything is in it, and then through what each wait brings. */
  function Await(target: ExtHeader, buf: seq<Entry>, wakes: seq<Wake>): Answer
    decreases |wakes|, |buf|
  {
    if buf != [] then
      match LastOurs(target, buf)
      case Got(e) => Got(e)
      case _ => Await(target, [], wakes)
    else if wakes == [] then Waiting
    else
      match LastOurs(target, Deposit([], wakes[0].deposited))
      case Got(e) => Got(e)
      case _ => if wakes[0].timedOut then TimedOut else Await(target, [], wakes[1..])
  }

  class Mailbox {
    const ackbuf: array<Entry>
    var len: nat

    ghost predicate Valid()
      reads this
    {
      ackbuf.Length == ACKBUFLEN && len <= ACKBUFLEN
    }

    ghost function Contents(): seq<Entry>
      requires Valid()
      reads this, ackbuf
    {
      ackbuf[..len]
    }

    constructor ()
      ensures Valid() && Contents() == [] && fresh(ackbuf)
    {
      ackbuf := new Entry[ACKBUFLEN](_ => Entry(ExtFields(0, 0, 0, 0, 0, 0), 0));
      len := 0;
    }

    /** signal_acknak. */
    method Signal(e: Entry)
      requires Valid()
      modifies this`len, ackbuf
      ensures Valid()
      ensures Contents() == if |old(Contents())| < ACKBUFLEN then old(Contents()) + [e] else old(Contents())
    {
      if len < ACKBUFLEN {
        ackbuf[len] := e;
        len := len + 1;
      }
    }

    method SignalAll(es: seq<Entry>)
      requires Valid()
      modifies this`len, ackbuf
      ensures Valid() && Contents() == Deposit(old(Contents()), es)
    {
      var i := 0;
      while i < |es|
        invariant Valid() && i <= |es|
        invariant Deposit(Contents(), es[i..]) == Deposit(old(Contents()), es)
      {
        assert es[i..][1..] == es[i + 1..];
        Signal(es[i]);
        i := i + 1;
      }
    }

    /** The scan of waitfor_acknak: a later entry overrides an earlier one, and the array is emptied. */
    method Scan(target: ExtHeader, soFar: Answer) returns (r: Answer)
      requires Valid()
      modifies this`len
      ensures Valid() && Contents() == []
      ensures r == if LastOurs(target, old(Contents())).Got? then LastOurs(target, old(Contents())) else soFar
      ensures NoneOurs(target, old(Contents())) ==> r == soFar
      ensures forall k :: IsLastOurs(target, old(Contents()), k) ==> r == Got(old(Contents())[k])
    {
      LastOursExactly(target, Contents());
      r := soFar;
      var i := 0;
      while i < len
        modifies {}
        invariant i <= len
        invariant r == if LastOurs(target, ackbuf[..i]).Got? then LastOurs(target, ackbuf[..i]) else soFar
      {
        assert ackbuf[..i + 1][..i] == ackbuf[..i];
        if IsOurs(target, ackbuf[i]) {
          r := Got(ackbuf[i]);
        }
        i := i + 1;
      }
      len := 0;
    }

    /** waitfor_acknak. `wakes` is what the waits will end with; `Waiting` when they run out. */
    method WaitFor(target: ExtHeader, wakes: seq<Wake>) returns (r: Answer)
      requires Valid()
      modifies this`len, ackbuf
      ensures Valid()
      ensures r == Await(target, old(Contents()), wakes)
    {
      r := Waiting;
      var i := 0;
      ghost var first := Contents();
      if len > 0 {
        r := Scan(target, Waiting);
      }
      while r.Waiting? && i < |wakes|
        invariant Valid() && i <= |wakes|
        invariant r.Waiting? ==> Contents() == []
        invariant if r.Waiting? then Await(target, [], wakes[i..]) == Await(target, first, wakes)
                  else r == Await(target, first, wakes)
        decreases |wakes| - i
      {
        SignalAll(wakes[i].deposited);
        r := Scan(target, if wakes[i].timedOut then TimedOut else Waiting);
        assert wakes[i..][1..] == wakes[i + 1..];
        i := i + 1;
      }
    }
  }

  /** An entry is for the target exactly when the headers are the same word but for the four bits of priority and
      type. */
  lemma IsOursMeans(target: ExtHeader, e: Entry)
    ensures IsOurs(target, e) <==> PackExt(e.ext) % 0x1000_0000 == PackExt(target) % 0x1000_0000
  {
    AddressBits(e.ext, target);
  }

  /** The last entry for the target, as its position tells. */
  predicate IsLastOurs(target: ExtHeader, buf: seq<Entry>, k: int) {
    0 <= k < |buf| && IsOurs(target, buf[k]) && forall j :: k < j < |buf| ==> !IsOurs(target, buf[j])
  }

  /** Later entries override earlier ones: what is found is the entry for the target after which there is none. */
  lemma {:induction false} LastOursExactly(target: ExtHeader, buf: seq<Entry>)
    ensures forall e :: LastOurs(target, buf) == Got(e) <==> exists k :: IsLastOurs(target, buf, k) && buf[k] == e
    ensures LastOurs(target, buf) == Waiting <==> NoneOurs(target, buf)
  {
    if buf != [] {
      var n := |buf| - 1;
      LastOursExactly(target, buf[..n]);
      if IsOurs(target, buf[n]) {
        assert IsLastOurs(target, buf, n);
      } else {
        forall k
          ensures IsLastOurs(target, buf, k) <==> IsLastOurs(target, buf[..n], k)
        {
        }
      }
    }
  }

  /** What does not fit is dropped from the end. */
  lemma {:induction false} DepositExactly(buf: seq<Entry>, es: seq<Entry>)
    requires |buf| <= ACKBUFLEN
    ensures Deposit(buf, es) == Fitting(buf + es)
    decreases |es|
  {
    if es != [] {
      if |buf| < ACKBUFLEN {
        DepositExactly(buf + [es[0]], es[1..]);
        assert buf + [es[0]] + es[1..] == buf + es;
      } else {
        DepositExactly(buf, es[1..]);
        assert (buf + es)[..ACKBUFLEN] == buf == (buf + es[1..])[..ACKBUFLEN];
      }
    }
  }

  /** A wait that the writer does not go on waiting after: an entry for its target has come, or the time is up. */
  predicate Decides(target: ExtHeader, w: Wake) {
    w.timedOut || exists k :: 0 <= k < |w.deposited| && k < ACKBUFLEN && IsOurs(target, w.deposited[k])
  }

  /** The first such wait. */
  predicate FirstDeciding(target: ExtHeader, wakes: seq<Wake>, i: int) {
    0 <= i < |wakes| && Decides(target, wakes[i]) && forall j :: 0 <= j < i ==> !Decides(target, wakes[j])
  }

  /** What the array holds of what one wait brings. */
  function Fitting(es: seq<Entry>): seq<Entry> {
    es[..if |es| <= ACKBUFLEN then |es| else ACKBUFLEN]
  }

  /** The answer is the last entry for the target of those that fit, even when the time is up, and a timeout only if
      there is none. */
  ghost predicate AnswerTo(target: ExtHeader, es: seq<Entry>, r: Answer) {
    if NoneOurs(target, Fitting(es)) then r == TimedOut
    else exists k :: IsLastOurs(target, Fitting(es), k) && r == Got(Fitting(es)[k])
  }

  predicate NoneOurs(target: ExtHeader, buf: seq<Entry>) {
    forall k :: 0 <= k < |buf| ==> !IsOurs(target, buf[k])
  }

  lemma FirstDecides(target: ExtHeader, wakes: seq<Wake>)
    requires wakes != []
    ensures if Decides(target, wakes[0]) then AnswerTo(target, wakes[0].deposited, Await(target, [], wakes))
            else Await(target, [], wakes) == Await(target, [], wakes[1..])
  {
    var kept := Fitting(wakes[0].deposited);
    DepositExactly([], wakes[0].deposited);
    assert [] + wakes[0].deposited == wakes[0].deposited;
    assert Deposit([], wakes[0].deposited) == kept;
    LastOursExactly(target, kept);
    LastOursFound(target, kept);
    KeptDecides(target, wakes[0], kept);
  }

  /** With an empty array the first wait to decide gives the answer. */
  lemma {:induction false} AwaitExactly(target: ExtHeader, wakes: seq<Wake>)
    ensures forall i :: FirstDeciding(target, wakes, i) ==>
              AnswerTo(target, wakes[i].deposited, Await(target, [], wakes))
    ensures Await(target, [], wakes) == Waiting <==> forall i :: 0 <= i < |wakes| ==> !Decides(target, wakes[i])
    decreases |wakes|
  {
    if wakes != [] {
      var rest := wakes[1..];
      FirstDecides(target, wakes);
      if Decides(target, wakes[0]) {
        assert Await(target, [], wakes) != Waiting;
      } else {
        AwaitExactly(target, rest);
        forall i | FirstDeciding(target, wakes, i)
          ensures AnswerTo(target, wakes[i].deposited, Await(target, [], wakes))
        {
          FirstLater(target, wakes, i);
        }
        if forall i :: 0 <= i < |rest| ==> !Decides(target, rest[i]) {
          forall i | 0 <= i < |wakes|
            ensures !Decides(target, wakes[i])
          {
            assert i > 0 ==> wakes[i] == rest[i - 1];
          }
        }
        if i :| 0 <= i < |rest| && Decides(target, rest[i]) {
          assert Decides(target, wakes[i + 1]);
        }
      }
    }
  }

  lemma KeptDecides(target: ExtHeader, w: Wake, kept: seq<Entry>)
    requires kept == Fitting(w.deposited)
    ensures Decides(target, w) <==> w.timedOut || !NoneOurs(target, kept)
  {
    if k :| 0 <= k < |w.deposited| && k < ACKBUFLEN && IsOurs(target, w.deposited[k]) {
      assert kept[k] == w.deposited[k];
    }
  }

  lemma FirstLater(target: ExtHeader, wakes: seq<Wake>, i: int)
    requires 0 < i && FirstDeciding(target, wakes, i)
    ensures FirstDeciding(target, wakes[1..], i - 1) && wakes[1..][i - 1] == wakes[i]
  {
    forall j | 0 <= j < i - 1
      ensures !Decides(target, wakes[1..][j])
    {
      assert wakes[1..][j] == wakes[j + 1];
    }
  }

  /** What is in the array already comes first: its last entry for the target is the answer, and if there is none it is
      as if the array had been empty. */
  lemma AwaitLooksFirst(target: ExtHeader, buf: seq<Entry>, wakes: seq<Wake>)
    ensures if NoneOurs(target, buf) then Await(target, buf, wakes) == Await(target, [], wakes)
            else exists k :: IsLastOurs(target, buf, k) && Await(target, buf, wakes) == Got(buf[k])
  {
    LastOursExactly(target, buf);
    LastOursFound(target, buf);
  }

  /** Every entry the writer gets to see. */
  predicate Seen(e: Entry, buf: seq<Entry>, wakes: seq<Wake>) {
    e in buf || exists i :: 0 <= i < |wakes| && e in wakes[i].deposited
  }

  lemma SeenSplit(e: Entry, wakes: seq<Wake>)
    requires wakes != []
    ensures Seen(e, [], wakes) <==> e in wakes[0].deposited || Seen(e, [], wakes[1..])
  {
    if e in wakes[0].deposited {
    } else if i :| 0 <= i < |wakes[1..]| && e in wakes[1..][i].deposited {
      assert e in wakes[i + 1].deposited;
    } else if i :| 0 < i < |wakes| && e in wakes[i].deposited {
      assert e in wakes[1..][i - 1].deposited;
    }
  }

  lemma {:induction false} LastOursFound(target: ExtHeader, buf: seq<Entry>)
    ensures LastOurs(target, buf).Got? <==> exists e :: e in buf && IsOurs(target, e)
    ensures LastOurs(target, buf).Got? ==>
              LastOurs(target, buf).entry in buf && IsOurs(target, LastOurs(target, buf).entry)
    ensures !LastOurs(target, buf).TimedOut?
  {
    if buf != [] {
      LastOursFound(target, buf[..|buf| - 1]);
      assert buf == buf[..|buf| - 1] + [buf[|buf| - 1]];
    }
  }

  lemma {:induction false} DepositFits(buf: seq<Entry>, es: seq<Entry>)
    requires |buf| + |es| <= ACKBUFLEN
    ensures Deposit(buf, es) == buf + es
    decreases |es|
  {
    if es != [] {
      DepositFits(buf + [es[0]], es[1..]);
      assert buf + [es[0]] + es[1..] == buf + es;
    }
  }

  /** When no wait times out and the array never overflows, the writer goes on exactly when an entry for its target
      has been deposited, and with such an entry; so if only the answer to its own packet is, with that answer. */
  lemma {:induction false} AnswerPaired(target: ExtHeader, buf: seq<Entry>, wakes: seq<Wake>)
    requires forall i :: 0 <= i < |wakes| ==> !wakes[i].timedOut && |wakes[i].deposited| <= ACKBUFLEN
    ensures var r := Await(target, buf, wakes);
            && (r.Got? <==> exists e :: Seen(e, buf, wakes) && IsOurs(target, e))
            && (r.Got? ==> Seen(r.entry, buf, wakes) && IsOurs(target, r.entry))
            && !r.TimedOut?
    decreases |wakes|, |buf|
  {
    LastOursFound(target, buf);
    if buf != [] {
      AnswerPaired(target, [], wakes);
      assert forall e :: Seen(e, buf, wakes) <==> e in buf || Seen(e, [], wakes);
    } else if wakes != [] {
      var es := wakes[0].deposited;
      DepositFits([], es);
      assert [] + es == es;
      LastOursFound(target, es);
      AnswerPaired(target, [], wakes[1..]);
      forall e
        ensures Seen(e, buf, wakes) <==> e in es || Seen(e, [], wakes[1..])
      {
        SeenSplit(e, wakes);
      }
    }
  }
}
