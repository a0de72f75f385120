/** Console output of a node: characters queue in a ring, leave in DAT packets of one to four, and the next packet waits
    for the acknowledgement of the last one or for the timer. The state and every handler as values.
*/
module ConsoleOutput {
  import opened Options
  import opened CanPacket
  import opened RingBuffer

  const NL: Byte := 10
  const CR: Byte := 13
  const MODULE_H8 := 0x1d

  /** CANCON_UNCONNECTED: only cluster and module are looked at. */
  predicate Unconnected(e: ExtHeader) {
    e.cluster == 0x3f && e.modno == 0x3f
  }

  /** A DAT packet given to the network. */
  datatype Dat = Dat(dest: nat, ext: ExtHeader, payload: seq<Byte>)

  /** What became of characters that left the queue. */
  datatype Fate = Sent(chars: seq<Byte>) | Lost(chars: seq<Byte>) | Cleared(chars: seq<Byte>)

  /** `rmt`, `out`, `pending` and `timer` are the driver's variables; the rest is history: the packets sent, what became
      of characters, those accepted, and how often the pending flag was cleared. */
  datatype Output = Output(
    rmt: ExtHeader, out: seq<Byte>, pending: bool, timer: bool,
    dats: seq<Dat>, fates: seq<Fate>, accepted: seq<Byte>, clears: nat)

  function Min(a: nat, b: nat): (r: nat)
    ensures r <= a && r <= b && (r == a || r == b)
  {
    if a <= b then a else b
  }

  /** The queue is cleared. */
  function Clear(s: Output): Output {
    s.(out := [], fates := s.fates + [Cleared(s.out)])
  }

  /** As many of the characters as fit are put in the queue. */
  function Push(s: Output, chars: seq<Byte>): Output {
    var room := if |s.out| <= MAXRING - 1 then MAXRING - 1 - |s.out| else 0;
    var kept := chars[..Min(room, |chars|)];
    s.(out := s.out + kept, accepted := s.accepted + kept)
  }

  function DatFor(nodeid: nat, rmt: ExtHeader, chars: seq<Byte>): Dat {
    var local := rmt.cluster == UnpackCluster(nodeid) && rmt.modno == UnpackModule(nodeid);
    Dat(if local then rmt.node % 32 else MODULE_H8, rmt.(kind := TYPE_DAT), chars)
  }

  /** cancon_send_next; `room` says whether send_pkt finds room for the packet. */
  function SendNext(nodeid: nat, s: Output, room: bool): Output {
    if Unconnected(s.rmt) then Clear(s)
    else if s.pending || s.out == [] then s
    else
      var n := Min(4, |s.out|);
      var t := s.(out := s.out[n..]);
      if !room then t.(fates := s.fates + [Lost(s.out[..n])])
      else
        t.(pending := true, timer := true, fates := s.fates + [Sent(s.out[..n])],
           dats := s.dats + [DatFor(nodeid, s.rmt, s.out[..n])])
  }

  /** Each newline is preceded by a carriage return. */
  function Expand(text: seq<Byte>): seq<Byte> {
    if text == [] then []
    else (if text[0] == NL then [CR, NL] else [text[0]]) + Expand(text[1..])
  }

  function PrintkWrite(nodeid: nat, s: Output, text: seq<Byte>, room: bool): Output {
    if Unconnected(s.rmt) || text == [] then s else SendNext(nodeid, Push(s, Expand(text)), room)
  }

  /** A kernel message: its text, which is empty unless the CAN is the kernel's console, and whether send_pkt finds room
      when the message starts a packet. */
  datatype Message = Message(text: seq<Byte>, room: bool)

  /** Flag and timer as cancon_recv_ack clears them. */
  function Acknowledged(s: Output): Output {
    s.(timer := false, pending := false, clears := s.clears + if s.pending then 1 else 0)
  }

  /** What cancon_recv_ack prints: nothing on an acknowledgement that was awaited. */
  function Printed(s: Output, timeout: bool, said: Message): seq<Byte> {
    if timeout || !s.pending then said.text else []
  }

  /** cancon_recv_ack, on an acknowledgement or on the timer. Its message goes through the same queue before the next
      packet is sent. */
  function RecvAck(nodeid: nat, s: Output, timeout: bool, said: Message, room: bool): Output {
    SendNext(nodeid, PrintkWrite(nodeid, Acknowledged(s), Printed(s, timeout, said), said.room), room)
  }

  /** How many characters of a write get into the queue: those before the one whose copy from user space faults, if
      any, and no more than fit. */
  function Taken(s: Output, count: nat, fault: Option<nat>): nat {
    var room := if |s.out| <= MAXRING - 1 then MAXRING - 1 - |s.out| else 0;
    Min(room, if fault.Some? then Min(fault.value, count) else count)
  }

  /** The fault is met before the queue is full. */
  predicate Faults(s: Output, count: nat, fault: Option<nat>) {
    fault.Some? && fault.value < count && fault.value <= MAXRING - 1 - |s.out|
  }

  /** cantty_write. After a fault nothing is sent. */
  function TtyWrite(nodeid: nat, s: Output, buf: seq<Byte>, fault: Option<nat>, stopped: bool, room: bool): Output {
    if Unconnected(s.rmt) || stopped then s
    else
      var n := Taken(s, |buf|, fault);
      var t := Push(s, buf[..n]);
      if Faults(s, |buf|, fault) || n == 0 then t else SendNext(nodeid, t, room)
  }

  function PutChar(nodeid: nat, s: Output, c: Byte, room: bool): Output {
    SendNext(nodeid, Push(s, [c]), room)
  }

  /** cancon_setcon(NULL): priority and type bits stay. */
  function NoOwner(e: ExtHeader): ExtHeader {
    e.(cluster := 0x3f, modno := 0x3f, node := 0x3f, object_ := 0x3f)
  }

  datatype Event =
    | Printk(text: seq<Byte>)
    | Write(buf: seq<Byte>, fault: Option<nat>, stopped: bool)
    | Put(c: Byte)
    | Ack(said: Message)
    | Timeout(said: Message)
    | Flush
    | Connect(owner: ExtHeader)
    | Disconnect

  /** One handler. The timer only fires when it is armed, a new owner is only set when there is none, and an owner is
      only removed when there is one. */
  function Step(nodeid: nat, s: Output, e: Event, room: bool): Output {
    match e
    case Printk(text) => PrintkWrite(nodeid, s, text, room)
    case Write(buf, fault, stopped) => TtyWrite(nodeid, s, buf, fault, stopped, room)
    case Put(c) => PutChar(nodeid, s, c, room)
    case Ack(said) => if Unconnected(s.rmt) then s else RecvAck(nodeid, s, false, said, room)
    case Timeout(said) => if s.timer then RecvAck(nodeid, s, true, said, room) else s
    case Flush => Clear(s)
    case Connect(owner) => if Unconnected(s.rmt) then s.(rmt := owner) else s
    case Disconnect => if Unconnected(s.rmt) then s else Clear(s.(rmt := NoOwner(s.rmt)))
  }

  function Start(rmt: ExtHeader): Output {
    Output(rmt, [], false, false, [], [], [], 0)
  }

  function Exec(nodeid: nat, s: Output, run: seq<(Event, bool)>): Output
    decreases |run|
  {
    if run == [] then s else Exec(nodeid, Step(nodeid, s, run[0].0, run[0].1), run[1..])
  }

  // ---------------------------------------------------------------------------------------------------------------
  // What is written is what is accepted and sent.

  /** The front of a text that the queue still has room for. */
  function Fitting(queued: seq<Byte>, text: seq<Byte>): (r: seq<Byte>)
    requires |queued| <= MAXRING - 1
    ensures r <= text && |queued + r| <= MAXRING - 1 && (r == text || |queued + r| == MAXRING - 1)
  {
    text[..Min(MAXRING - 1 - |queued|, |text|)]
  }

  /** A text is expanded piece by piece, a newline to CR NL and every other character to itself. */
  lemma {:induction false} ExpandMeans(a: seq<Byte>, b: seq<Byte>, c: Byte)
    ensures Expand(a + b) == Expand(a) + Expand(b)
    ensures Expand([]) == []
    ensures Expand([c]) == if c == NL then [CR, NL] else [c]
  {
    assert [c][1..] == [];
    if a == [] {
      assert a + b == b;
    } else {
      ExpandMeans(a[1..], b, c);
      assert (a + b)[1..] == a[1..] + b;
    }
  }

  /** What a handler offers to the queue. */
  function Offered(s: Output, e: Event): seq<Byte> {
    if Unconnected(s.rmt) && !e.Put? then []
    else
      match e
      case Printk(text) => Expand(text)
      case Write(buf, fault, stopped) =>
        if stopped then [] else Readable(buf, fault)
      case Put(c) => [c]
      case Ack(said) => if s.pending then [] else Expand(said.text)
      case Timeout(said) => if s.timer then Expand(said.text) else []
      case _ => []
  }

  /** Every handler accepts exactly what fits of what it offers, whether or not a packet is sent and lost. */
  lemma StepAccepts(nodeid: nat, s: Output, e: Event, room: bool)
    requires |s.out| <= MAXRING - 1
    ensures Step(nodeid, s, e, room).accepted == s.accepted + Fitting(s.out, Offered(s, e))
  {
    match e
    case Printk(text) => PushAccepts(s, Expand(text));
    case Write(buf, fault, stopped) => WriteAccepts(nodeid, s, buf, fault, stopped, room);
    case Put(c) => PushAccepts(s, [c]);
    case Ack(said) => AckAccepts(nodeid, s, false, said, room);
    case Timeout(said) => AckAccepts(nodeid, s, true, said, room);
    case _ =>
  }

  lemma WriteAccepts(nodeid: nat, s: Output, buf: seq<Byte>, fault: Option<nat>, stopped: bool, room: bool)
    requires |s.out| <= MAXRING - 1
    ensures TtyWrite(nodeid, s, buf, fault, stopped, room).accepted ==
            if Unconnected(s.rmt) || stopped then s.accepted
            else s.accepted + Fitting(s.out, Readable(buf, fault))
  {
    PushAccepts(s, buf[..Taken(s, |buf|, fault)]);
    TakenFits(s, buf, fault);
  }

  lemma AckAccepts(nodeid: nat, s: Output, timeout: bool, said: Message, room: bool)
    requires |s.out| <= MAXRING - 1
    ensures RecvAck(nodeid, s, timeout, said, room).accepted ==
            if Unconnected(s.rmt) || (s.pending && !timeout) then s.accepted
            else s.accepted + Fitting(s.out, Expand(said.text))
  {
    PushAccepts(Acknowledged(s), Expand(said.text));
  }

  /** The characters of a write before the one whose copy from user space faults. */
  function Readable(buf: seq<Byte>, fault: Option<nat>): (r: seq<Byte>)
    ensures r <= buf && |r| == if fault.Some? then Min(fault.value, |buf|) else |buf|
  {
    buf[..if fault.Some? && fault.value < |buf| then fault.value else |buf|]
  }

  lemma TakenFits(s: Output, buf: seq<Byte>, fault: Option<nat>)
    requires |s.out| <= MAXRING - 1
    ensures buf[..Taken(s, |buf|, fault)] == Fitting(s.out, Readable(buf, fault))
    ensures Fitting(s.out, buf[..Taken(s, |buf|, fault)]) == Fitting(s.out, Readable(buf, fault))
  {
  }

  lemma PushAccepts(s: Output, chars: seq<Byte>)
    requires |s.out| <= MAXRING - 1
    ensures Push(s, chars).accepted == s.accepted + Fitting(s.out, chars)
    ensures Push(s, chars).out == s.out + Fitting(s.out, chars)
    ensures s.accepted + Fitting(s.out, []) == s.accepted
  {
  }

  /** Everything accepted in a run, handler by handler. */
  function AcceptedOver(nodeid: nat, s: Output, run: seq<(Event, bool)>): seq<Byte>
    decreases |run|
  {
    if run == [] || |s.out| > MAXRING - 1 then []
    else
      Fitting(s.out, Offered(s, run[0].0)) +
      AcceptedOver(nodeid, Step(nodeid, s, run[0].0, run[0].1), run[1..])
  }

  /** A packet for the console's owner: its extended header names the owner's object, and on the wire it goes to the
      owner's node if that is in this module, and else to the module's H8. */
  ghost predicate ForOwner(nodeid: nat, rmt: ExtHeader, d: Dat) {
    && d.ext.object_ == rmt.object_ && d.ext.kind == TYPE_DAT && d.ext.xpriority == rmt.xpriority
    && d.ext.cluster == rmt.cluster && d.ext.modno == rmt.modno && d.ext.node == rmt.node
    && (forall id: nat :: IsNode(rmt, id) ==>
          if UnpackModule(id) == UnpackModule(nodeid) && UnpackCluster(id) == UnpackCluster(nodeid)
          then d.dest == UnpackNode(id) else d.dest == MODULE_H8)
  }

  /** The node with this id is the one a header names. */
  predicate IsNode(e: ExtHeader, id: nat) {
    e.cluster == UnpackCluster(id) && e.modno == UnpackModule(id) && e.node == UnpackNode(id)
  }

  lemma DatReaches(nodeid: nat, rmt: ExtHeader, chars: seq<Byte>)
    ensures ForOwner(nodeid, rmt, DatFor(nodeid, rmt, chars)) && DatFor(nodeid, rmt, chars).payload == chars
  {
  }

  /** What happens to the queue `queued` of a connected terminal when the next packet may be tried: nothing goes while
      an acknowledgement is pending, and otherwise up to four of the oldest characters go to the owner, or are lost.
      */
  ghost predicate TakesNext(nodeid: nat, s: Output, queued: seq<Byte>, t: Output, room: bool) {
    if s.pending || queued == [] then t.out == queued && t.dats == s.dats && t.pending == s.pending
    else
      && t.out == queued[Min(4, |queued|)..]
      && t.pending == room && t.timer == (room || s.timer)
      && s.dats <= t.dats && |t.dats| == |s.dats| + (if room then 1 else 0)
      && (room ==> t.dats[|s.dats|].payload + t.out == queued && ForOwner(nodeid, s.rmt, t.dats[|s.dats|]))
  }

  lemma SendTakes(nodeid: nat, s: Output, room: bool)
    ensures !Unconnected(s.rmt) ==> TakesNext(nodeid, s, s.out, SendNext(nodeid, s, room), room)
  {
    DatReaches(nodeid, s.rmt, s.out[..Min(4, |s.out|)]);
  }

  // ---------------------------------------------------------------------------------------------------------------
  // Conservation.

  function Flatten(fates: seq<Fate>): seq<Byte> {
    if fates == [] then [] else Flatten(fates[..|fates| - 1]) + fates[|fates| - 1].chars
  }

  /** The payloads that went out, in order. */
  function Payloads(fates: seq<Fate>): seq<seq<Byte>> {
    if fates == [] then []
    else
      Payloads(fates[..|fates| - 1]) +
      (if fates[|fates| - 1].Sent? then [fates[|fates| - 1].chars] else [])
  }

  function DatPayloads(dats: seq<Dat>): seq<seq<Byte>> {
    seq(|dats|, i requires 0 <= i < |dats| => dats[i].payload)
  }

  ghost predicate Conserved(s: Output) {
    && s.accepted == Flatten(s.fates) + s.out
    && DatPayloads(s.dats) == Payloads(s.fates)
    && |s.out| <= MAXRING - 1
    && (forall d :: d in s.dats ==> 1 <= |d.payload| <= 4)
    && (forall f :: f in s.fates && f.Lost? ==> 1 <= |f.chars| <= 4)
  }

  /** The stop-and-wait discipline. */
  ghost predicate Waiting(s: Output) {
    && s.pending == s.timer
    && |s.dats| == s.clears + (if s.pending then 1 else 0)
    && (Unconnected(s.rmt) ==> s.out == [])
  }

  lemma FlattenOne(fates: seq<Fate>, f: Fate)
    ensures Flatten(fates + [f]) == Flatten(fates) + f.chars
    ensures Payloads(fates + [f]) == Payloads(fates) + if f.Sent? then [f.chars] else []
  {
    assert (fates + [f])[..|fates|] == fates;
  }

  lemma ClearConserves(s: Output)
    requires Conserved(s)
    ensures Conserved(Clear(s))
  {
    FlattenOne(s.fates, Cleared(s.out));
  }

  lemma PushConserves(s: Output, chars: seq<Byte>)
    requires Conserved(s)
    ensures Conserved(Push(s, chars))
  {
    var kept := chars[..Min(MAXRING - 1 - |s.out|, |chars|)];
    assert Flatten(s.fates) + (s.out + kept) == Flatten(s.fates) + s.out + kept;
  }

  lemma DatAppended(dats: seq<Dat>, d: Dat)
    ensures DatPayloads(dats + [d]) == DatPayloads(dats) + [d.payload]
  {
  }

  lemma SendConserves(nodeid: nat, s: Output, room: bool)
    requires Conserved(s)
    ensures Conserved(SendNext(nodeid, s, room))
  {
    if Unconnected(s.rmt) {
      ClearConserves(s);
    } else if !s.pending && s.out != [] {
      var n := Min(4, |s.out|);
      var d := DatFor(nodeid, s.rmt, s.out[..n]);
      FlattenOne(s.fates, if room then Sent(s.out[..n]) else Lost(s.out[..n]));
      DatAppended(s.dats, d);
      assert Flatten(s.fates) + s.out[..n] + s.out[n..] == Flatten(s.fates) + s.out;
    }
  }

  lemma PrintkConserves(nodeid: nat, s: Output, text: seq<Byte>, room: bool)
    requires Conserved(s)
    ensures Conserved(PrintkWrite(nodeid, s, text, room))
  {
    PushConserves(s, Expand(text));
    SendConserves(nodeid, Push(s, Expand(text)), room);
  }

  lemma AckConserves(nodeid: nat, s: Output, timeout: bool, said: Message, room: bool)
    requires Conserved(s)
    ensures Conserved(RecvAck(nodeid, s, timeout, said, room))
  {
    var text := Printed(s, timeout, said);
    PrintkConserves(nodeid, Acknowledged(s), text, said.room);
    SendConserves(nodeid, PrintkWrite(nodeid, Acknowledged(s), text, said.room), room);
  }

  lemma StepConserves(nodeid: nat, s: Output, e: Event, room: bool)
    requires Conserved(s)
    ensures Conserved(Step(nodeid, s, e, room))
  {
    match e
    case Printk(text) => PrintkConserves(nodeid, s, text, room);
    case Write(buf, fault, stopped) =>
      var chars := buf[..Taken(s, |buf|, fault)];
      PushConserves(s, chars);
      SendConserves(nodeid, Push(s, chars), room);
    case Put(c) =>
      PushConserves(s, [c]);
      SendConserves(nodeid, Push(s, [c]), room);
    case Ack(said) => AckConserves(nodeid, s, false, said, room);
    case Timeout(said) => AckConserves(nodeid, s, true, said, room);
    case Flush => ClearConserves(s);
    case Connect(_) =>
    case Disconnect => ClearConserves(s.(rmt := NoOwner(s.rmt)));
  }

  lemma SendWaits(nodeid: nat, s: Output, room: bool)
    requires Waiting(s)
    ensures Waiting(SendNext(nodeid, s, room))
  {
  }

  lemma PrintkWaits(nodeid: nat, s: Output, text: seq<Byte>, room: bool)
    requires Waiting(s)
    ensures Waiting(PrintkWrite(nodeid, s, text, room))
  {
    if !Unconnected(s.rmt) {
      SendWaits(nodeid, Push(s, Expand(text)), room);
    }
  }

  lemma AckWaits(nodeid: nat, s: Output, timeout: bool, said: Message, room: bool)
    requires Waiting(s)
    ensures Waiting(RecvAck(nodeid, s, timeout, said, room))
  {
    var text := Printed(s, timeout, said);
    PrintkWaits(nodeid, Acknowledged(s), text, said.room);
    SendWaits(nodeid, PrintkWrite(nodeid, Acknowledged(s), text, said.room), room);
  }

  lemma StepWaits(nodeid: nat, s: Output, e: Event, room: bool)
    requires Waiting(s)
    ensures Waiting(Step(nodeid, s, e, room))
  {
    match e
    case Printk(text) => PrintkWaits(nodeid, s, text, room);
    case Write(buf, fault, _) =>
      if !Unconnected(s.rmt) {
        SendWaits(nodeid, Push(s, buf[..Taken(s, |buf|, fault)]), room);
      }
    case Put(c) =>
      if !Unconnected(s.rmt) {
        SendWaits(nodeid, Push(s, [c]), room);
      }
    case Ack(said) => AckWaits(nodeid, s, false, said, room);
    case Timeout(said) => AckWaits(nodeid, s, true, said, room);
    case _ =>
  }

  lemma {:induction false} ExecConserves(nodeid: nat, s: Output, run: seq<(Event, bool)>)
    requires Conserved(s) && Waiting(s)
    ensures Conserved(Exec(nodeid, s, run)) && Waiting(Exec(nodeid, s, run))
    decreases |run|
  {
    if run != [] {
      StepConserves(nodeid, s, run[0].0, run[0].1);
      StepWaits(nodeid, s, run[0].0, run[0].1);
      ExecConserves(nodeid, Step(nodeid, s, run[0].0, run[0].1), run[1..]);
    }
  }

  /** Over every run from the start what is accepted is what fits of each handler's text; it is, in order, those in
      DAT packets, those lost with a packet the network had no room for, those cleared, and those still queued; the
      DAT packets carry exactly the ones counted as sent, one to four each; the pending flag and the timer agree; and
      at most one packet is unacknowledged. */
  lemma OutputConserved(nodeid: nat, rmt: ExtHeader, run: seq<(Event, bool)>)
    ensures Conserved(Exec(nodeid, Start(rmt), run)) && Waiting(Exec(nodeid, Start(rmt), run))
    ensures Exec(nodeid, Start(rmt), run).accepted == AcceptedOver(nodeid, Start(rmt), run)
  {
    StartConserved(rmt);
    ExecConserves(nodeid, Start(rmt), run);
    ExecAccepts(nodeid, Start(rmt), run);
  }

  lemma {:induction false} ExecAccepts(nodeid: nat, s: Output, run: seq<(Event, bool)>)
    requires Conserved(s)
    ensures Exec(nodeid, s, run).accepted == s.accepted + AcceptedOver(nodeid, s, run)
    decreases |run|
  {
    if run != [] {
      var t := Step(nodeid, s, run[0].0, run[0].1);
      StepAccepts(nodeid, s, run[0].0, run[0].1);
      StepConserves(nodeid, s, run[0].0, run[0].1);
      ExecAccepts(nodeid, t, run[1..]);
      Grouped(s.accepted, Fitting(s.out, Offered(s, run[0].0)), AcceptedOver(nodeid, t, run[1..]));
    }
  }

  lemma StartConserved(rmt: ExtHeader)
    ensures Conserved(Start(rmt)) && Waiting(Start(rmt))
  {
  }

  // ---------------------------------------------------------------------------------------------------------------
  // No stalls.

  /** Output is queued for an owner and nothing will send it. */
  predicate Stalled(s: Output) {
    !Unconnected(s.rmt) && s.out != [] && !s.pending
  }

  /** After an acknowledgement or a timeout two packets are tried if a message was printed, else one. */
  predicate AckLeavesStalled(s: Output, text: seq<Byte>, textRoom: bool, room: bool) {
    !room && if text == [] then |s.out| > 4 else !textRoom && |Push(s, Expand(text)).out| > 8
  }

  /** The steps that leave output stalled are exactly these: all packets tried are dropped for want of room while more
      than their characters are queued, or a write faults after taking characters while nothing is pending. */
  predicate LeavesStalled(s: Output, e: Event, room: bool) {
    !Unconnected(s.rmt) &&
    match e
    case Printk(text) => text != [] && !s.pending && !room && |Push(s, Expand(text)).out| > 4
    case Write(buf, fault, stopped) =>
      && !stopped && !s.pending && Taken(s, |buf|, fault) > 0
      && (Faults(s, |buf|, fault) || (!room && |s.out| + Taken(s, |buf|, fault) > 4))
    case Put(c) => !s.pending && !room && |Push(s, [c]).out| > 4
    case Ack(said) => AckLeavesStalled(s, Printed(s, false, said), said.room, room)
    case Timeout(said) => s.timer && AckLeavesStalled(s, Printed(s, true, said), said.room, room)
    case _ => false
  }

  lemma Expands(text: seq<Byte>)
    requires text != []
    ensures Expand(text) != []
  {
  }

  lemma StallsExactlyWhen(nodeid: nat, s: Output, e: Event, room: bool)
    requires Conserved(s) && Waiting(s) && !Stalled(s)
    ensures Stalled(Step(nodeid, s, e, room)) <==> LeavesStalled(s, e, room)
  {
    match e
    case Printk(text) =>
      if text != [] {
        Expands(text);
      }
    case Ack(said) =>
      if !Unconnected(s.rmt) {
        AckStallsExactlyWhen(nodeid, s, false, said, room);
      }
    case Timeout(said) =>
      if !Unconnected(s.rmt) {
        AckStallsExactlyWhen(nodeid, s, true, said, room);
      }
    case _ =>
  }

  lemma AckStallsExactlyWhen(nodeid: nat, s: Output, timeout: bool, said: Message, room: bool)
    requires |s.out| <= MAXRING - 1 && !Unconnected(s.rmt)
    ensures Stalled(RecvAck(nodeid, s, timeout, said, room)) <==>
            AckLeavesStalled(s, Printed(s, timeout, said), said.room, room)
  {
    var text := Printed(s, timeout, said);
    if text != [] {
      Expands(text);
      assert Push(Acknowledged(s), Expand(text)).out == Push(s, Expand(text)).out;
    }
  }

  /** send_pkt always finds room and no copy from user space faults. */
  predicate Calm(e: Event, room: bool) {
    room &&
    match e
    case Write(_, fault, _) => fault.None?
    case Ack(said) => said.room
    case Timeout(said) => said.room
    case _ => true
  }

  predicate Untroubled(run: seq<(Event, bool)>) {
    forall i :: 0 <= i < |run| ==> Calm(run[i].0, run[i].1)
  }

  lemma {:induction false} ExecNeverStalls(nodeid: nat, s: Output, run: seq<(Event, bool)>)
    requires Conserved(s) && Waiting(s) && !Stalled(s) && Untroubled(run)
    ensures !Stalled(Exec(nodeid, s, run))
    decreases |run|
  {
    if run != [] {
      StepConserves(nodeid, s, run[0].0, run[0].1);
      StepWaits(nodeid, s, run[0].0, run[0].1);
      StallsExactlyWhen(nodeid, s, run[0].0, run[0].1);
      ExecNeverStalls(nodeid, Step(nodeid, s, run[0].0, run[0].1), run[1..]);
    }
  }

  /** Without send failures and faults, queued output for an owner is always behind a pending acknowledgement. */
  lemma NeverStalls(nodeid: nat, rmt: ExtHeader, run: seq<(Event, bool)>)
    requires Untroubled(run)
    ensures !Stalled(Exec(nodeid, Start(rmt), run))
  {
    StartConserved(rmt);
    ExecNeverStalls(nodeid, Start(rmt), run);
  }

  // ---------------------------------------------------------------------------------------------------------------
  // Progress.

  function Joined(dats: seq<Dat>): seq<Byte> {
    if dats == [] then [] else dats[0].payload + Joined(dats[1..])
  }

  lemma Grouped(a: seq<Byte>, b: seq<Byte>, c: seq<Byte>)
    ensures a + (b + c) == a + b + c
  {
  }

  lemma {:induction false} JoinedMore(a: seq<Dat>, b: seq<Dat>)
    ensures Joined(a + b) == Joined(a) + Joined(b)
  {
    if a == [] {
      assert a + b == b;
    } else {
      JoinedMore(a[1..], b);
      assert (a + b)[1..] == a[1..] + b;
      Grouped(a[0].payload, Joined(a[1..]), Joined(b));
    }
  }

  /** The queue is not cleared. */
  predicate KeepsQueue(e: Event) {
    !e.Flush? && !e.Disconnect?
  }

  /** What one packet takes from the front of the queue, and what is put behind. */
  ghost predicate GoesOn(s: Output, t: Output) {
    && t.rmt == s.rmt && s.dats <= t.dats
    && |t.dats| <= |s.dats| + 1
    && (forall d :: d in t.dats[|s.dats|..] ==> d.ext == s.rmt.(kind := TYPE_DAT))
    && s.out <= Joined(t.dats[|s.dats|..]) + t.out
    && s.clears <= t.clears <= s.clears + 1
    && (t.clears > s.clears ==> |Joined(t.dats[|s.dats|..])| >= Min(4, |s.out|))
  }

  lemma SendGoesOn(nodeid: nat, s: Output)
    requires !Unconnected(s.rmt)
    ensures var t := SendNext(nodeid, s, true);
            && t.rmt == s.rmt && t.clears == s.clears && (t.pending || t.out == [])
            && if s.pending || s.out == [] then t == s
               else t.dats == s.dats + [DatFor(nodeid, s.rmt, s.out[..Min(4, |s.out|)])] && t.pending
                    && t.out == s.out[Min(4, |s.out|)..]
  {
  }

  lemma SentOne(s: Output, t: Output, u: Output, nodeid: nat)
    requires t.rmt == s.rmt && t.dats == s.dats && s.out <= t.out
    requires s.clears <= t.clears == u.clears <= s.clears + 1 && (t.clears > s.clears ==> !t.pending)
    requires !Unconnected(t.rmt) && u == SendNext(nodeid, t, true)
    ensures GoesOn(s, u)
  {
    SendGoesOn(nodeid, t);
    var d := DatFor(nodeid, t.rmt, t.out[..Min(4, |t.out|)]);
    if !t.pending && t.out != [] {
      assert u.dats[|s.dats|..] == [d];
      assert Joined([d]) == d.payload + Joined([d][1..]);
      assert d.payload + u.out == t.out;
    } else {
      assert u.dats[|s.dats|..] == [];
    }
  }

  lemma StepGoesOn(nodeid: nat, s: Output, e: Event)
    requires Conserved(s) && Waiting(s) && !Stalled(s) && !Unconnected(s.rmt)
    requires Calm(e, true) && KeepsQueue(e)
    ensures GoesOn(s, Step(nodeid, s, e, true))
  {
    var t := Step(nodeid, s, e, true);
    match e
    case Printk(text) =>
      if text != [] {
        SentOne(s, Push(s, Expand(text)), t, nodeid);
      }
    case Write(buf, fault, stopped) =>
      var u := Push(s, buf[..Taken(s, |buf|, fault)]);
      if !stopped && Taken(s, |buf|, fault) > 0 {
        SentOne(s, u, t, nodeid);
      }
    case Put(c) => SentOne(s, Push(s, [c]), t, nodeid);
    case Ack(said) => AckGoesOn(nodeid, s, false, said);
    case Timeout(said) =>
      if s.timer {
        AckGoesOn(nodeid, s, true, said);
      }
    case Connect(_) =>
  }

  lemma AckGoesOn(nodeid: nat, s: Output, timeout: bool, said: Message)
    requires |s.out| <= MAXRING - 1 && !Unconnected(s.rmt) && said.room
    ensures GoesOn(s, RecvAck(nodeid, s, timeout, said, true))
  {
    var text := Printed(s, timeout, said);
    var t := Acknowledged(s);
    if text == [] {
      SentOne(s, t, RecvAck(nodeid, s, timeout, said, true), nodeid);
    } else {
      Expands(text);
      var u := SendNext(nodeid, Push(t, Expand(text)), true);
      SendGoesOn(nodeid, Push(t, Expand(text)));
      SentOne(s, Push(t, Expand(text)), u, nodeid);
      SendGoesOn(nodeid, u);
    }
  }

  /** Of the first n characters queued in s, four have gone out for each time the pending flag has been cleared since,
      or all n; and what has gone out went to the owner. */
  ghost predicate GoneOut(s: Output, t: Output, n: nat) {
    && t.rmt == s.rmt && s.dats <= t.dats && s.clears <= t.clears
    && (forall d :: d in t.dats[|s.dats|..] ==> d.ext == s.rmt.(kind := TYPE_DAT))
    && s.out <= Joined(t.dats[|s.dats|..]) + t.out
    && |Joined(t.dats[|s.dats|..])| >= Min(4 * (t.clears - s.clears), n)
  }

  lemma GoneOutMore(s: Output, s1: Output, t: Output, n: nat)
    requires GoesOn(s, s1) && n <= |s.out|
    requires var k := |Joined(s1.dats[|s.dats|..])|; GoneOut(s1, t, if k <= n then n - k else 0)
    ensures GoneOut(s, t, n)
  {
    var first, rest := s1.dats[|s.dats|..], t.dats[|s1.dats|..];
    assert t.dats[|s.dats|..] == first + rest;
    JoinedMore(first, rest);
    PrefixThrough(s.out, Joined(first), s1.out, Joined(rest) + t.out);
    Grouped(Joined(first), Joined(rest), t.out);
  }

  lemma PrefixThrough(a: seq<Byte>, b: seq<Byte>, c: seq<Byte>, d: seq<Byte>)
    requires a <= b + c && c <= d
    ensures a <= b + d
  {
    assert b + c == (b + d)[..|b + c|];
  }

  lemma {:induction false} OldestGoOut(nodeid: nat, s: Output, run: seq<(Event, bool)>, n: nat)
    requires Conserved(s) && Waiting(s) && !Stalled(s) && !Unconnected(s.rmt) && n <= |s.out|
    requires Untroubled(run) && forall i :: 0 <= i < |run| ==> KeepsQueue(run[i].0)
    ensures GoneOut(s, Exec(nodeid, s, run), n)
    decreases |run|
  {
    if run == [] {
      assert s.dats[|s.dats|..] == [];
    } else {
      assert Calm(run[0].0, run[0].1) && KeepsQueue(run[0].0);
      var e := run[0].0;
      var s1 := Step(nodeid, s, e, true);
      StepConserves(nodeid, s, e, true);
      StepWaits(nodeid, s, e, true);
      StallsExactlyWhen(nodeid, s, e, true);
      StepGoesOn(nodeid, s, e);
      var k := |Joined(s1.dats[|s.dats|..])|;
      QueueLeft(s, s1, n);
      OldestGoOut(nodeid, s1, run[1..], if k <= n then n - k else 0);
      GoneOutMore(s, s1, Exec(nodeid, s1, run[1..]), n);
    }
  }

  lemma QueueLeft(s: Output, s1: Output, n: nat)
    requires GoesOn(s, s1) && n <= |s.out|
    ensures n <= |Joined(s1.dats[|s.dats|..])| + |s1.out|
  {
  }

  /** In every run without send failures, faults, flushes and disconnections, however much is printed, written and timed
      out meanwhile: once the pending flag has been cleared once for every four of the characters queued at the start,
      these have all gone out in order, before anything queued behind them, and to the owner. */
  lemma Drains(nodeid: nat, s: Output, run: seq<(Event, bool)>)
    requires Conserved(s) && Waiting(s) && !Stalled(s) && !Unconnected(s.rmt)
    requires Untroubled(run) && forall i :: 0 <= i < |run| ==> KeepsQueue(run[i].0)
    requires Exec(nodeid, s, run).clears >= s.clears + (|s.out| + 3) / 4
    ensures var t := Exec(nodeid, s, run);
            && s.dats <= t.dats && s.out <= Joined(t.dats[|s.dats|..])
            && forall d :: d in t.dats[|s.dats|..] ==> d.ext == s.rmt.(kind := TYPE_DAT)
  {
    OldestGoOut(nodeid, s, run, |s.out|);
  }

  /** n characters go out in chunks of four. */
  function Chunks(chars: seq<Byte>): seq<seq<Byte>> {
    if chars == [] then []
    else [chars[..Min(4, |chars|)]] + Chunks(chars[Min(4, |chars|)..])
  }

  /** The pending flag cleared once for each element, by the timer where it is true and else by an ACK, with nothing
      printed. */
  const SILENT := Message([], true)

  function Acks(nodeid: nat, s: Output, timeouts: seq<bool>): Output
    decreases |timeouts|
  {
    if timeouts == [] then s
    else Acks(nodeid, Step(nodeid, s, if timeouts[0] then Timeout(SILENT) else Ack(SILENT), true), timeouts[1..])
  }

  /** With nothing else going on: from a state waiting for an acknowledgement, as many acknowledgements or timeouts as
      there are groups of four characters queued send exactly those groups in order to the owner and leave the queue
      empty. */
  lemma {:induction false} DrainsExactly(nodeid: nat, s: Output, timeouts: seq<bool>)
    requires !Unconnected(s.rmt) && s.pending && s.timer
    requires |timeouts| == (|s.out| + 3) / 4
    ensures var t := Acks(nodeid, s, timeouts);
            t.out == [] && t.rmt == s.rmt && DatPayloads(t.dats) == DatPayloads(s.dats) + Chunks(s.out)
    ensures |Chunks(s.out)| == |timeouts|
    decreases |timeouts|
  {
    if timeouts != [] {
      var t := Step(nodeid, s, if timeouts[0] then Timeout(SILENT) else Ack(SILENT), true);
      var chunk := s.out[..Min(4, |s.out|)];
      DatAppended(s.dats, DatFor(nodeid, s.rmt, chunk));
      DrainsExactly(nodeid, t, timeouts[1..]);
      assert DatPayloads(s.dats) + [chunk] + Chunks(t.out) == DatPayloads(s.dats) + ([chunk] + Chunks(t.out));
    }
  }
}
