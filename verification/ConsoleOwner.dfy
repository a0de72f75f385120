/** Who owns a node's console: one word in memory, changed by writes to two objects and kept as decimal text in the
    PROM so that the owner survives a reboot.
*/
module ConsoleOwner {
  import opened Options
  import opened CanPacket
  import opened Words
  import opened ConsoleOutput

  // ---------------------------------------------------------------------------------------------------------------
  // The word as text.

  const NUL := '\0'

  function Digit(d: nat): (c: char)
    requires d < 10
    ensures IsDigit(c) && c as int == '0' as int + d
  {
    ('0' as int + d) as char
  }

  function Print(n: nat): string {
    if n < 10 then [Digit(n)] else Print(n / 10) + [Digit(n % 10)]
  }

  predicate IsDigit(c: char) {
    '0' <= c <= '9'
  }

  /** simple_strtoul in base ten from a value already read: it stops at the first character that is no digit, and the
      value wraps at 32 bits. */
  function ParseFrom(s: string, value: Word): Word
    decreases |s|
  {
    if s == [] || !IsDigit(s[0]) then value
    else ParseFrom(s[1..], (value * 10 + (s[0] as int - '0' as int)) % WORD32)
  }

  /** Only the first 16 characters of the property are read. */
  function Parse(prom: string): Word {
    ParseFrom(if |prom| <= 16 then prom else prom[..16], 0)
  }

  function PromText(w: Word): string {
    Print(w) + [NUL]
  }

  lemma DigitRead(d: nat, rest: string, value: Word)
    requires d < 10
    ensures ParseFrom([Digit(d)] + rest, value) == ParseFrom(rest, (value * 10 + d) % WORD32)
  {
    assert ([Digit(d)] + rest)[1..] == rest;
  }

  lemma {:induction false} ParsePrinted(n: nat, rest: string)
    requires n < WORD32
    ensures ParseFrom(Print(n) + rest, 0) == ParseFrom(rest, n)
  {
    if n < 10 {
      DigitRead(n, rest, 0);
    } else {
      var d := [Digit(n % 10)];
      assert Print(n) + rest == Print(n / 10) + (d + rest);
      ParsePrinted(n / 10, d + rest);
      assert (n / 10 * 10 + n % 10) % WORD32 == n;
      DigitRead(n % 10, rest, n / 10);
      assert ParseFrom(d + rest, n / 10) == ParseFrom(rest, n);
    }
  }

  predicate AllDigits(s: string) {
    forall i :: 0 <= i < |s| ==> IsDigit(s[i])
  }

  /** The number a row of decimal digits stands for. */
  function Decimal(s: string): nat
    requires AllDigits(s)
  {
    if s == [] then 0 else Decimal(s[..|s| - 1]) * 10 + (s[|s| - 1] as int - '0' as int)
  }

  /** A number is printed as its decimal digits, without a leading zero. */
  lemma {:induction false} PrintsDecimal(n: nat)
    ensures Print(n) != [] && AllDigits(Print(n)) && Decimal(Print(n)) == n
    ensures Print(n)[0] == '0' ==> n == 0
  {
    if n >= 10 {
      PrintsDecimal(n / 10);
      assert IsDigit(Digit(n % 10));
      assert Print(n)[..|Print(n)| - 1] == Print(n / 10);
    } else {
      assert Decimal(Print(n)[..0]) == 0;
    }
  }

  /** Reading takes the leading digits, as a decimal number cut to 32 bits. */
  lemma {:induction false} ReadsDecimal(digits: string, rest: string)
    requires AllDigits(digits)
    ensures ParseFrom(digits + rest, 0) == ParseFrom(rest, Decimal(digits) % WORD32)
    ensures rest == [] || !IsDigit(rest[0]) ==> ParseFrom(digits + rest, 0) == Decimal(digits) % WORD32
  {
    if digits == [] {
      assert digits + rest == rest;
    } else {
      var n := |digits| - 1;
      var d := digits[n] as int - '0' as int;
      ReadsDecimal(digits[..n], [digits[n]] + rest);
      assert digits[..n] + ([digits[n]] + rest) == digits + rest;
      assert ([digits[n]] + rest)[1..] == rest;
      CutLater(Decimal(digits[..n]), d);
    }
  }

  lemma CutLater(v: nat, d: nat)
    ensures (v % WORD32 * 10 + d) % WORD32 == (v * 10 + d) % WORD32
  {
    var q := v / WORD32;
    assert v * 10 + d == 10 * q * WORD32 + (v % WORD32 * 10 + d);
    SameRemainder(10 * q, v % WORD32 * 10 + d);
  }

  lemma {:induction false} SameRemainder(q: nat, x: nat)
    ensures (q * WORD32 + x) % WORD32 == x % WORD32
  {
    if q > 0 {
      SameRemainder(q - 1, x);
      assert q * WORD32 + x == (q - 1) * WORD32 + x + WORD32;
    }
  }

  function Pow10(k: nat): nat {
    if k == 0 then 1 else 10 * Pow10(k - 1)
  }

  lemma {:induction false} PrintLength(n: nat, k: nat)
    requires k >= 1 && n < Pow10(k)
    ensures |Print(n)| <= k
  {
    if n >= 10 {
      PrintLength(n / 10, k - 1);
    }
  }

  /** Every 32-bit word survives being written as text, with its terminator, and read back, and the text fits the
      16 bytes there are for it. */
  lemma TextRoundTrip(w: Word)
    ensures |PromText(w)| <= 11 && Parse(PromText(w)) == w
  {
    assert Pow10(10) == 10 * Pow10(9) && Pow10(5) == 100000 && Pow10(9) == 10000 * Pow10(5);
    PrintLength(w, 10);
    ParsePrinted(w, [NUL]);
  }

  // ---------------------------------------------------------------------------------------------------------------
  // The handlers.

  datatype Owner = Owner(rmt: ExtHeader, prom: string)

  /** A handler's outcome: the state, the answer sent if any, and whether the packet was for it. */
  datatype Outcome = Outcome(owner: Owner, reply: Option<Packet>, handled: bool)

  /** canobj_acknak, with the source filled in by send_pkt. */
  function AckNak(nodeid: nat, kind: nat, p: Packet, data: Option<Word>): Packet
    requires kind == TYPE_ACK || kind == TYPE_NAK
  {
    p.(can := p.can.(dest := p.can.src, src := UnpackNode(nodeid), remote := 0, length := if data.Some? then 8 else 4),
       ext := p.ext.(kind := kind),
       dat := if data.Some? then data.value else p.dat)
  }

  /** The owner set and written to the PROM. */
  function SetOwner(rmt: ExtHeader): Owner {
    Owner(rmt, PromText(PackExt(rmt)))
  }

  /** canobj_connect. */
  function HandleConnect(nodeid: nat, o: Owner, p: Packet): Outcome {
    if p.ext.kind == TYPE_RO then Outcome(o, Some(AckNak(nodeid, TYPE_ACK, p, Some(PackExt(o.rmt)))), true)
    else if p.ext.kind == TYPE_WO then
      if !Unconnected(o.rmt) then Outcome(o, Some(AckNak(nodeid, TYPE_NAK, p, None)), true)
      else
        var o' := SetOwner(UnpackExt(p.dat));
        Outcome(o', Some(AckNak(nodeid, TYPE_ACK, p, Some(PackExt(o'.rmt)))), true)
    else Outcome(o, None, false)
  }

  /** canobj_disconnect. */
  function HandleDisconnect(nodeid: nat, o: Owner, p: Packet): Outcome {
    if p.ext.kind == TYPE_WO then
      if Unconnected(o.rmt) then Outcome(o, Some(AckNak(nodeid, TYPE_NAK, p, None)), true)
      else Outcome(SetOwner(NoOwner(o.rmt)), Some(AckNak(nodeid, TYPE_ACK, p, None)), true)
    else Outcome(o, None, false)
  }

  /** canobj_dat. */
  function HandleDat(nodeid: nat, o: Owner, p: Packet): Outcome {
    if !Unconnected(o.rmt) && p.ext.kind == TYPE_DAT then
      Outcome(o, Some(AckNak(nodeid, TYPE_ACK, p, None)), true)
    else Outcome(o, None, false)
  }

  /** The first half of canobj_packet, for the objects that have to do with the console: dispatch on the object. The
      other objects answer without touching the owner. */
  function Dispatch(nodeid: nat, o: Owner, p: Packet): Outcome {
    if p.ext.object_ == OBJ_CONSOLE_CONNECT then HandleConnect(nodeid, o, p)
    else if p.ext.object_ == OBJ_CONSOLE_DISCONN then HandleDisconnect(nodeid, o, p)
    else if p.ext.object_ == 0 then HandleDat(nodeid, o, p)
    else Outcome(o, None, false)
  }

  /** canobj_packet: afterwards the packet may still be for the owner's console object. */
  function HandlePacket(nodeid: nat, o: Owner, p: Packet): Outcome {
    var r := Dispatch(nodeid, o, p);
    if !Unconnected(r.owner.rmt) && p.ext.object_ == r.owner.rmt.object_
    then r.(handled := p.ext.kind == TYPE_ACK || p.ext.kind == TYPE_NAK)
    else r
  }

  datatype Incident = Arrive(p: Packet) | Reboot

  /** canobj_init reads the owner back after a reboot. */
  function Advance(nodeid: nat, o: Owner, e: Incident): Owner {
    match e
    case Arrive(p) => HandlePacket(nodeid, o, p).owner
    case Reboot => o.(rmt := UnpackExt(Parse(o.prom)))
  }

  /** The owners after each of the incidents, starting with the present one. */
  function History(nodeid: nat, o: Owner, incidents: seq<Incident>): (r: seq<Owner>)
    ensures |r| == |incidents| + 1 && r[0] == o
    decreases |incidents|
  {
    if incidents == [] then [o] else [o] + History(nodeid, Advance(nodeid, o, incidents[0]), incidents[1..])
  }

  /** The owner a node starts with. */
  function Boot(prom: string): Owner {
    Owner(UnpackExt(Parse(prom)), prom)
  }

  predicate PromAgrees(o: Owner) {
    Parse(o.prom) == PackExt(o.rmt)
  }

  lemma AdvanceKeepsProm(nodeid: nat, o: Owner, e: Incident)
    requires PromAgrees(o)
    ensures PromAgrees(Advance(nodeid, o, e))
    ensures e.Reboot? ==> Advance(nodeid, o, e) == o
    ensures !Unconnected(o.rmt) && Advance(nodeid, o, e).rmt != o.rmt ==> Unconnected(Advance(nodeid, o, e).rmt)
  {
    match e
    case Reboot => ExtRoundTrip(o.rmt);
    case Arrive(p) =>
      TextRoundTrip(PackExt(Advance(nodeid, o, e).rmt));
  }

  lemma BootAgrees(prom: string)
    ensures PromAgrees(Boot(prom))
  {
    WordRoundTrip(Parse(prom));
  }

  lemma {:induction false} HistoryKeepsProm(nodeid: nat, o: Owner, incidents: seq<Incident>, i: nat)
    requires PromAgrees(o) && i <= |incidents|
    ensures PromAgrees(History(nodeid, o, incidents)[i])
    decreases |incidents|
  {
    if i > 0 {
      AdvanceKeepsProm(nodeid, o, incidents[0]);
      HistoryKeepsProm(nodeid, Advance(nodeid, o, incidents[0]), incidents[1..], i - 1);
    }
  }

  /** Whatever the PROM held at boot, after every event its text reads as the owner in memory, so a reboot at any point
      changes nothing. */
  lemma OwnerSurvivesReboot(nodeid: nat, prom: string, incidents: seq<Incident>, i: nat)
    requires i <= |incidents|
    ensures var o := History(nodeid, Boot(prom), incidents)[i];
            PromAgrees(o) && Advance(nodeid, o, Reboot) == o
  {
    BootAgrees(prom);
    HistoryKeepsProm(nodeid, Boot(prom), incidents, i);
    AdvanceKeepsProm(nodeid, History(nodeid, Boot(prom), incidents)[i], Reboot);
  }

  lemma HistoryNext(nodeid: nat, o: Owner, incidents: seq<Incident>, i: nat)
    requires i < |incidents|
    ensures History(nodeid, o, incidents)[i + 1] == History(nodeid, Advance(nodeid, o, incidents[0]), incidents[1..])[i]
  {
  }

  lemma {:induction false} UnconnectedSince(nodeid: nat, o: Owner, incidents: seq<Incident>, j: nat)
      returns (k: nat)
    requires PromAgrees(o) && j <= |incidents|
    requires History(nodeid, o, incidents)[j].rmt != o.rmt
    ensures k <= j && Unconnected(History(nodeid, o, incidents)[k].rmt)
    decreases |incidents|
  {
    k := 0;
    if !Unconnected(o.rmt) {
      var o1 := Advance(nodeid, o, incidents[0]);
      AdvanceKeepsProm(nodeid, o, incidents[0]);
      if o1.rmt != o.rmt {
        HistoryNext(nodeid, o, incidents, 0);
        k := 1;
      } else {
        HistoryNext(nodeid, o, incidents, j - 1);
        k := UnconnectedSince(nodeid, o1, incidents[1..], j - 1);
        HistoryNext(nodeid, o, incidents, k);
        k := k + 1;
      }
    }
  }

  /** The history from moment i on is the history from the owner at that moment. */
  lemma {:induction false} HistoryFrom(nodeid: nat, o: Owner, incidents: seq<Incident>, i: nat)
    requires i <= |incidents|
    ensures History(nodeid, o, incidents)[i..] == History(nodeid, History(nodeid, o, incidents)[i], incidents[i..])
    decreases |incidents|
  {
    if i == 0 {
      assert incidents[0..] == incidents;
    } else {
      HistoryFrom(nodeid, Advance(nodeid, o, incidents[0]), incidents[1..], i - 1);
      assert incidents[1..][i - 1..] == incidents[i..];
    }
  }

  /** The console never passes from one owner straight to another: if the owners at two moments differ, it is
      unconnected at one of the two or at a moment in between. */
  lemma ChangesThroughUnconnected(nodeid: nat, prom: string, incidents: seq<Incident>, i: nat, j: nat)
    requires i <= j <= |incidents|
    ensures var h := History(nodeid, Boot(prom), incidents);
            h[i].rmt == h[j].rmt || exists k :: i <= k <= j && Unconnected(h[k].rmt)
  {
    var h := History(nodeid, Boot(prom), incidents);
    if h[i].rmt != h[j].rmt {
      BootAgrees(prom);
      HistoryKeepsProm(nodeid, Boot(prom), incidents, i);
      HistoryFrom(nodeid, Boot(prom), incidents, i);
      assert h[j] == h[i..][j - i];
      var k := UnconnectedSince(nodeid, h[i], incidents[i..], j - i);
      assert h[i + k] == h[i..][k];
    }
  }

  /** The header with all ones, as far as six bits go, for its address. */
  predicate IsNoOwner(was: ExtHeader, e: ExtHeader) {
    && Unconnected(e) && e.cluster == e.modno == e.node == e.object_ == 63
    && e.xpriority == was.xpriority && e.kind == was.kind
  }

  /** The answer to a packet: to its sender and from this node, with the same extended header but for the kind; and an
      ACK from the connect object carries the owner, as it then is. */
  predicate IsAnswer(nodeid: nat, p: Packet, owner: ExtHeader, a: Packet) {
    var carries := p.ext.object_ == OBJ_CONSOLE_CONNECT && a.ext.kind == TYPE_ACK;
    && a.can.dest == p.can.src && a.can.src == UnpackNode(nodeid)
    && a.can.remote == 0 && a.can.lpriority == p.can.lpriority && a.timestamp == p.timestamp
    && a.ext == p.ext.(kind := a.ext.kind) && (a.ext.kind == TYPE_ACK || a.ext.kind == TYPE_NAK)
    && a.can.length == 4 + (if carries then 4 else 0)
    && (if carries then UnpackExt(a.dat) == owner else a.dat == p.dat)
  }

  /** Every answer is one, and what is not answered does not touch the owner. A packet counts as handled when it is
      answered, but one for the object of the owner there then is when it is an ACK or NAK. */
  lemma AnswersExactly(nodeid: nat, o: Owner, p: Packet)
    ensures var r := HandlePacket(nodeid, o, p);
            && (r.reply.Some? ==> IsAnswer(nodeid, p, r.owner.rmt, r.reply.value))
            && (r.reply.None? ==> r.owner == o)
            && (r.handled <==>
                  if !Unconnected(r.owner.rmt) && p.ext.object_ == r.owner.rmt.object_
                  then p.ext.kind == TYPE_ACK || p.ext.kind == TYPE_NAK else r.reply.Some?)
  {
    ExtRoundTrip(HandlePacket(nodeid, o, p).owner.rmt);
  }

  /** A disconnection leaves all ones in the owner's address, and the bits of priority and type as they were. */
  lemma DisconnectionClears(nodeid: nat, o: Owner, p: Packet)
    requires p.ext.object_ == OBJ_CONSOLE_DISCONN && p.ext.kind == TYPE_WO && !Unconnected(o.rmt)
    ensures IsNoOwner(o.rmt, HandlePacket(nodeid, o, p).owner.rmt)
  {
  }

  /** Typed characters are acknowledged exactly when there is an owner, whoever sends them. */
  lemma TypingAnswered(nodeid: nat, o: Owner, p: Packet)
    requires p.ext.object_ == 0
    ensures var r := HandlePacket(nodeid, o, p);
            && (r.reply.Some? <==> !Unconnected(o.rmt) && p.ext.kind == TYPE_DAT)
            && (r.reply.Some? ==> r.reply.value.ext.kind == TYPE_ACK) && r.owner == o
  {
  }

  /** What each answer of a node tells about its owner: a read is answered with it, a write of an owner is granted
      exactly when there is none, and a disconnection exactly when there is one, whoever asks. */
  lemma AnswersTell(nodeid: nat, o: Owner, p: Packet)
    requires p.ext.object_ == OBJ_CONSOLE_CONNECT || p.ext.object_ == OBJ_CONSOLE_DISCONN
    ensures var r := HandlePacket(nodeid, o, p);
            var write := p.ext.kind == TYPE_WO;
            var connect := p.ext.object_ == OBJ_CONSOLE_CONNECT;
            && (r.reply.Some? <==> write || (connect && p.ext.kind == TYPE_RO))
            && (r.reply.Some? ==>
                  && r.reply.value.can.dest == p.can.src
                  && r.reply.value.ext == p.ext.(kind := r.reply.value.ext.kind)
                  && (r.reply.value.ext.kind == TYPE_ACK <==>
                        !write || (if connect then Unconnected(o.rmt) else !Unconnected(o.rmt)))
                  && (!write ==> r.owner == o && UnpackExt(r.reply.value.dat) == o.rmt)
                  && (r.reply.value.ext.kind == TYPE_NAK ==> r.owner == o)
                  && (write && connect && r.reply.value.ext.kind == TYPE_ACK ==> r.owner.rmt == UnpackExt(p.dat))
                  && (write && !connect && r.reply.value.ext.kind == TYPE_ACK ==> Unconnected(r.owner.rmt)))
  {
    ExtRoundTrip(o.rmt);
  }
}
