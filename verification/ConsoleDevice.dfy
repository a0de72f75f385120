/** The console driver of a node on its own variables and ring buffers, each handler proved to do what the handlers on
    values do. What send_pkt answers is a parameter (`room`).
*/
module ConsoleDevice {
  import opened Options
  import opened CanPacket
  import opened RingBuffer
  import opened ConsoleOutput

  const TTY_FLIPBUF_SIZE := 512

  lemma AddOne(a: seq<Byte>, b: seq<Byte>, n: nat)
    requires n < |b|
    ensures a + b[..n] + [b[n]] == a + b[..n + 1]
  {
  }

  class Console {
    const nodeid: nat
    var rmt: ExtHeader
    const outbuf: Ring<Byte>
    const inbuf: Ring<Byte>
    var ackPending: bool
    var ackTimer: bool
    var dats: seq<Dat>
    ghost var fates: seq<Fate>
    ghost var accepted: seq<Byte>
    ghost var clears: nat

    ghost predicate Valid()
      reads this, outbuf, outbuf.buf, inbuf, inbuf.buf
    {
      && outbuf.Valid() && inbuf.Valid()
      && outbuf != inbuf && outbuf.buf != inbuf.buf
    }

    ghost function State(): Output
      reads this, outbuf
    {
      Output(rmt, outbuf.contents, ackPending, ackTimer, dats, fates, accepted, clears)
    }

    constructor (nodeid: nat, rmt: ExtHeader)
      ensures Valid() && State() == Start(rmt) && inbuf.contents == [] && this.nodeid == nodeid
      ensures fresh(outbuf) && fresh(outbuf.buf) && fresh(inbuf) && fresh(inbuf.buf)
    {
      this.nodeid, this.rmt := nodeid, rmt;
      outbuf := new Ring<Byte>();
      inbuf := new Ring<Byte>();
      ackPending, ackTimer, dats, fates, accepted, clears := false, false, [], [], [], 0;
    }

    /** The loop of cancon_send_next that fills the payload. */
    method TakeFour() returns (payload: seq<Byte>)
      requires Valid()
      modifies outbuf
      ensures Valid()
      ensures payload == old(outbuf.contents)[..Min(4, |old(outbuf.contents)|)]
      ensures outbuf.contents == old(outbuf.contents)[Min(4, |old(outbuf.contents)|)..]
    {
      ghost var out := outbuf.contents;
      payload := [];
      var c := Some(0 as Byte);
      while |payload| < 4 && c.Some?
        modifies outbuf
        invariant Valid() && |payload| <= 4 && |payload| <= |out|
        invariant payload == out[..|payload|] && outbuf.contents == out[|payload|..]
        invariant c.None? ==> |payload| == |out|
        decreases 4 - |payload|, c.Some?
      {
        c := outbuf.Out();
        if c.Some? {
          payload := payload + [c.value];
        }
      }
    }

    /** cancon_send_next. */
    method SendNext(room: bool)
      requires Valid()
      modifies this`ackPending, this`ackTimer, this`dats, this`fates, outbuf
      ensures Valid() && State() == ConsoleOutput.SendNext(nodeid, old(State()), room)
      ensures if Unconnected(rmt) then outbuf.contents == [] && dats == old(dats)
              else TakesNext(nodeid, old(State()), old(outbuf.contents), State(), room)
    {
      SendTakes(nodeid, State(), room);
      if Unconnected(rmt) {
        fates := fates + [Cleared(outbuf.contents)];
        outbuf.Clear();
        return;
      }
      if ackPending {
        return;
      }
      var payload := TakeFour();
      if |payload| == 0 {
        return;
      }
      if !room {
        fates := fates + [Lost(payload)];
        return;
      }
      fates := fates + [Sent(payload)];
      dats := dats + [DatFor(nodeid, rmt, payload)];
      ackPending := true;
      ackTimer := true;
    }

    /** cancon_recv_ack. When `said.text` is what is printed, it goes through the queue before the next packet. */
    method RecvAck(timeout: bool, said: Message, room: bool)
      requires Valid()
      modifies this`ackPending, this`ackTimer, this`dats, this`fates, this`clears, this`accepted, outbuf, outbuf.buf
      ensures Valid() && State() == ConsoleOutput.RecvAck(nodeid, old(State()), timeout, said, room)
      ensures old(ackPending) && !timeout ==>
                && accepted == old(accepted) && rmt == old(rmt)
                && if Unconnected(rmt) then outbuf.contents == [] && dats == old(dats)
                   else TakesNext(nodeid, old(State()).(pending := false, timer := false), old(outbuf.contents),
                                  State(), room)
    {
      ghost var text := Printed(State(), timeout, said);
      var unexpected := Acknowledge();
      ghost var s := State();
      if unexpected || timeout {
        PrintkWrite(said.text, said.room);
      }
      assert State() == ConsoleOutput.PrintkWrite(nodeid, s, text, said.room);
      SendNext(room);
    }

    /** The flag and the timer. */
    method Acknowledge() returns (unexpected: bool)
      requires Valid()
      modifies this`ackPending, this`ackTimer, this`clears
      ensures Valid() && State() == Acknowledged(old(State())) && unexpected == !old(ackPending)
      ensures !ackPending && !ackTimer && outbuf.contents == old(outbuf.contents)
    {
      unexpected := !ackPending;
      ackTimer := false;
      if ackPending {
        ackPending := false;
        clears := clears + 1;
      }
    }

    /** One round of the loop of cancon_printk_write. */
    method PrintkChar(c: Byte)
      requires Valid()
      modifies this`accepted, outbuf, outbuf.buf
      ensures Valid() && State() == PushChar(old(State()), c)
    {
      if c == NL {
        var _ := CharToRing(CR);
      }
      var _ := CharToRing(c);
    }

    /** The loop of cancon_printk_write: every character is tried, whether or not the one before fitted. */
    method PushText(text: seq<Byte>)
      requires Valid()
      modifies this`accepted, outbuf, outbuf.buf
      ensures Valid() && State() == Push(old(State()), Expand(text))
      ensures |old(outbuf.contents)| <= MAXRING - 1
      ensures outbuf.contents == old(outbuf.contents) + Fitting(old(outbuf.contents), Expand(text))
      ensures accepted == old(accepted) + Fitting(old(outbuf.contents), Expand(text))
    {
      ghost var s := State();
      outbuf.Bounded();
      PushAccepts(s, Expand(text));
      var i := 0;
      PushNothing(s);
      while i < |text|
        modifies this`accepted, outbuf, outbuf.buf
        invariant Valid() && i <= |text|
        invariant State() == Push(s, Expand(text[..i]))
      {
        PushTextStep(s, text, i);
        PrintkChar(text[i]);
        i := i + 1;
      }
      assert text[..i] == text;
    }

    method PrintkWrite(text: seq<Byte>, room: bool)
      requires Valid()
      modifies this`ackPending, this`ackTimer, this`dats, this`fates, this`accepted, outbuf, outbuf.buf
      ensures Valid() && State() == ConsoleOutput.PrintkWrite(nodeid, old(State()), text, room)
      ensures |old(outbuf.contents)| <= MAXRING - 1
      ensures if Unconnected(rmt) || text == [] then State() == old(State())
              else var chars := Fitting(old(outbuf.contents), Expand(text));
                   && accepted == old(accepted) + chars
                   && TakesNext(nodeid, old(State()), old(outbuf.contents) + chars, State(), room)
    {
      outbuf.Bounded();
      if Unconnected(rmt) || |text| == 0 {
        return;
      }
      PushText(text);
      SendNext(room);
    }

    /** char_to_ring on the output ring. */
    method CharToRing(c: Byte) returns (ok: bool)
      requires Valid()
      modifies this`accepted, outbuf, outbuf.buf
      ensures Valid() && State() == Push(old(State()), [c])
      ensures ok <==> |old(State()).out| < MAXRING - 1
      ensures |old(outbuf.contents)| <= MAXRING - 1
      ensures outbuf.contents == old(outbuf.contents) + if ok then [c] else []
      ensures accepted == old(accepted) + if ok then [c] else []
    {
      outbuf.Bounded();
      ok := outbuf.In(c);
      if ok {
        accepted := accepted + [c];
      }
    }

    /** The loop of cantty_write: how many characters were taken, and whether copying the next one faulted. */
    method CopyIn(buf: seq<Byte>, fault: Option<nat>) returns (n: nat, faulted: bool)
      requires Valid()
      modifies this`accepted, outbuf, outbuf.buf
      ensures Valid() && n == Taken(old(State()), |buf|, fault) <= |buf|
      ensures State() == Push(old(State()), buf[..n])
      ensures faulted <==> Faults(old(State()), |buf|, fault)
      ensures |old(outbuf.contents)| <= MAXRING - 1 && buf[..n] == Fitting(old(outbuf.contents), Readable(buf, fault))
      ensures outbuf.contents == old(outbuf.contents) + buf[..n] && accepted == old(accepted) + buf[..n]
    {
      ghost var s := State();
      outbuf.Bounded();
      var go := true;
      n, faulted := 0, false;
      PushNothing(s);
      while n < |buf| && go
        modifies this`accepted, outbuf, outbuf.buf
        invariant Valid() && Copying(s, State(), buf, fault, n, go, faulted)
        decreases |buf| - n, go
      {
        if fault == Some(n) {
          go, faulted := false, true;
        } else {
          CopyStep(s, State(), buf, fault, n);
          go := CharToRing(buf[n]);
          if go {
            n := n + 1;
          }
        }
      }
      CopyDone(s, |buf|, fault, n, go, faulted);
      TakenFits(s, buf, fault);
      PushAccepts(s, buf[..n]);
    }

    /** cantty_write: `r` is the count returned, or -14 (EFAULT). */
    method TtyWrite(buf: seq<Byte>, fault: Option<nat>, stopped: bool, room: bool) returns (r: int)
      requires Valid()
      modifies this`ackPending, this`ackTimer, this`dats, this`fates, this`accepted, outbuf, outbuf.buf
      ensures Valid() && State() == ConsoleOutput.TtyWrite(nodeid, old(State()), buf, fault, stopped, room)
      ensures r == if Unconnected(rmt) then |buf| else if stopped then 0
                   else if Faults(old(State()), |buf|, fault) then -14 else Taken(old(State()), |buf|, fault)
      ensures |old(outbuf.contents)| <= MAXRING - 1
      ensures if Unconnected(rmt) || stopped then State() == old(State())
              else
                var chars := Fitting(old(outbuf.contents), Readable(buf, fault));
                var queued := old(outbuf.contents) + chars;
                && accepted == old(accepted) + chars
                && (r == |chars| || r == -14)
                && (r == -14 <==> fault.Some? && fault.value == |chars| < |buf|)
                && if r > 0 then TakesNext(nodeid, old(State()), queued, State(), room)
                   else outbuf.contents == queued && dats == old(dats)
    {
      outbuf.Bounded();
      if Unconnected(rmt) {
        return |buf|;
      }
      if stopped {
        return 0;
      }
      var n, faulted := CopyIn(buf, fault);
      if faulted {
        return -14;
      }
      if n > 0 {
        SendNext(room);
      }
      r := n;
    }

    method PutChar(c: Byte, room: bool)
      requires Valid()
      modifies this`ackPending, this`ackTimer, this`dats, this`fates, this`accepted, outbuf, outbuf.buf
      ensures Valid() && State() == ConsoleOutput.PutChar(nodeid, old(State()), c, room)
      ensures |old(outbuf.contents)| <= MAXRING - 1
      ensures var chars := if |old(outbuf.contents)| < MAXRING - 1 then [c] else [];
              && accepted == old(accepted) + chars
              && if Unconnected(rmt) then outbuf.contents == [] && dats == old(dats)
                 else TakesNext(nodeid, old(State()), old(outbuf.contents) + chars, State(), room)
    {
      var _ := CharToRing(c);
      SendNext(room);
    }

    /** cantty_flush_buffer, and the output half of cantty_hangup. */
    method ClearOutput()
      requires Valid()
      modifies this`fates, outbuf
      ensures Valid() && State() == Clear(old(State())) && outbuf.contents == []
    {
      fates := fates + [Cleared(outbuf.contents)];
      outbuf.Clear();
    }

    method Hangup()
      requires Valid()
      modifies this`fates, outbuf, inbuf
      ensures Valid() && State() == Clear(old(State())) && outbuf.contents == [] && inbuf.contents == []
    {
      ClearOutput();
      inbuf.Clear();
    }

    /** cancon_setcon; no owner for None. */
    method SetCon(owner: Option<ExtHeader>)
      requires Valid()
      modifies this`rmt
      ensures Valid()
      ensures State() == old(State()).(rmt := if owner.Some? then owner.value else NoOwner(old(rmt)))
    {
      match owner
      case None =>
        rmt := rmt.(cluster := 0x3f, modno := 0x3f, node := 0x3f, object_ := 0x3f);
      case Some(e) =>
        rmt := e;
    }

    /** The loop of cantty_recv_dat. */
    method Receive(chars: seq<Byte>)
      requires Valid()
      modifies inbuf, inbuf.buf
      ensures Valid() && State() == old(State())
      ensures var queued := old(inbuf.contents);
              |queued| <= MAXRING - 1 &&
              inbuf.contents == queued + chars[..Min(MAXRING - 1 - |queued|, |chars|)]
    {
      ghost var queued := inbuf.contents;
      inbuf.Bounded();
      ghost var room := MAXRING - 1 - |queued|;
      ghost var n := 0;
      var i := 0;
      while i < |chars|
        modifies inbuf, inbuf.buf
        invariant Valid() && n <= i <= |chars| && n <= room && (n < room ==> n == i)
        invariant inbuf.contents == queued + chars[..n]
      {
        var _ := inbuf.In(chars[i]);
        if n < room {
          AddOne(queued, chars, n);
          n := n + 1;
        }
        i := i + 1;
      }
    }

    /** cantty_recv_push: from the front of the input ring as many as the terminal's buffer, with `flip` already in it,
        still takes. */
    method PushUp(open: bool, flip: nat) returns (up: seq<Byte>)
      requires Valid()
      modifies inbuf
      ensures Valid() && State() == old(State())
      ensures up + inbuf.contents == old(inbuf.contents)
      ensures |up| == if open && flip < TTY_FLIPBUF_SIZE then Min(TTY_FLIPBUF_SIZE - flip, |old(inbuf.contents)|) else 0
    {
      up := [];
      if !open {
        return;
      }
      ghost var all := inbuf.contents;
      var c := Some(0 as Byte);
      while flip + |up| < TTY_FLIPBUF_SIZE && c.Some?
        modifies inbuf
        invariant Valid() && up + inbuf.contents == all
        invariant c.None? ==> inbuf.contents == []
        invariant |up| <= if flip < TTY_FLIPBUF_SIZE then TTY_FLIPBUF_SIZE - flip else 0
        decreases TTY_FLIPBUF_SIZE - flip - |up|, c.Some?
      {
        ghost var left := inbuf.contents;
        c := inbuf.Out();
        if c.Some? {
          TakeFront(up, left);
          up := up + [c.value];
        }
      }
    }

    /** cantty_recv_dat: characters that fit go into the input ring, and what the terminal takes goes up in order. */
    method RecvDat(chars: seq<Byte>, open: bool, flip: nat) returns (up: seq<Byte>)
      requires Valid()
      modifies inbuf, inbuf.buf
      ensures Valid() && State() == old(State())
      ensures var queued := old(inbuf.contents);
              && |queued| <= MAXRING - 1
              && var all := queued + chars[..Min(MAXRING - 1 - |queued|, |chars|)];
                 && up + inbuf.contents == all
                 && |up| == if open && flip < TTY_FLIPBUF_SIZE then Min(TTY_FLIPBUF_SIZE - flip, |all|) else 0
    {
      Receive(chars);
      up := PushUp(open, flip);
    }
  }

  lemma PushNothing(s: Output)
    ensures Push(s, []) == s
    ensures Expand([]) == []
  {
  }

  /** Putting in more after what already went in is putting in all of it: once full, nothing more fits. */
  lemma PushMore(s: Output, a: seq<Byte>, b: seq<Byte>)
    requires |s.out| <= MAXRING - 1
    ensures Push(Push(s, a), b) == Push(s, a + b)
  {
    var n := MAXRING - 1 - |s.out|;
    if |a| <= n {
      assert (a + b)[..Min(n, |a + b|)] == a + b[..Min(n - |a|, |b|)];
    } else {
      assert (a + b)[..Min(n, |a + b|)] == a[..n];
    }
  }

  lemma {:induction false} ExpandLast(text: seq<Byte>)
    requires text != []
    ensures var last := text[|text| - 1];
            Expand(text) == Expand(text[..|text| - 1]) + if last == NL then [CR, NL] else [last]
  {
    if |text| > 1 {
      ExpandLast(text[1..]);
      assert text[1..][..|text| - 2] == text[..|text| - 1][1..];
    }
  }

  function PushChar(s: Output, c: Byte): Output {
    if c == NL then Push(Push(s, [CR]), [c]) else Push(s, [c])
  }

  lemma PushTextStep(s: Output, text: seq<Byte>, i: nat)
    requires i < |text| && |s.out| <= MAXRING - 1
    ensures PushChar(Push(s, Expand(text[..i])), text[i]) == Push(s, Expand(text[..i + 1]))
  {
    var now := Push(s, Expand(text[..i]));
    ExpandLast(text[..i + 1]);
    assert text[..i + 1][..i] == text[..i];
    PushMore(s, Expand(text[..i]), if text[i] == NL then [CR, NL] else [text[i]]);
    PushMore(now, [CR], [NL]);
  }

  /** In the loop of cantty_write: it stops at a fault or, before one, at the first character that does not fit. */
  predicate CopyState(queued: nat, count: nat, fault: Option<nat>, n: nat, go: bool, faulted: bool) {
    && n <= count && queued + n <= MAXRING - 1 && (fault.Some? ==> n <= fault.value)
    && (faulted ==> !go && fault == Some(n) && n < count)
    && (!go && !faulted ==> queued + n == MAXRING - 1 && fault != Some(n))
  }

  /** The loop has put the first n characters into what was the state s. */
  predicate Copying(s: Output, now: Output, buf: seq<Byte>, fault: Option<nat>, n: nat, go: bool, faulted: bool) {
    n <= |buf| && now == Push(s, buf[..n]) && CopyState(|s.out|, |buf|, fault, n, go, faulted)
  }

  lemma CopyStep(s: Output, now: Output, buf: seq<Byte>, fault: Option<nat>, n: nat)
    requires Copying(s, now, buf, fault, n, true, false) && fault != Some(n) && n < |buf|
    ensures if |now.out| < MAXRING - 1 then Copying(s, Push(now, [buf[n]]), buf, fault, n + 1, true, false)
            else Copying(s, Push(now, [buf[n]]), buf, fault, n, false, false)
  {
    assert buf[..n + 1] == buf[..n] + [buf[n]];
    PushMore(s, buf[..n], [buf[n]]);
    if |s.out| + n >= MAXRING - 1 {
      assert buf[..n + 1][..MAXRING - 1 - |s.out|] == buf[..n][..MAXRING - 1 - |s.out|];
    }
  }

  lemma CopyDone(s: Output, count: nat, fault: Option<nat>, n: nat, go: bool, faulted: bool)
    requires CopyState(|s.out|, count, fault, n, go, faulted) && (n == count || !go)
    ensures n == Taken(s, count, fault) && (faulted <==> Faults(s, count, fault))
  {
  }
}
