/** The handlers for console packets on the driver's own variables: the owner in memory, its text in the PROM, the
    output state, and the answers sent.
*/
module ConsoleNode {
  import opened Options
  import opened CanPacket
  import opened RingBuffer
  import opened ConsoleOutput
  import opened ConsoleOwner
  import opened ConsoleDevice

  /** What dispatching a console packet does to the output state: connect and disconnect as the owner allows. */
  function OutputDispatch(nodeid: nat, s: Output, p: Packet): Output {
    if p.ext.kind != TYPE_WO then s
    else if p.ext.object_ == OBJ_CONSOLE_CONNECT then Step(nodeid, s, Connect(UnpackExt(p.dat)), true)
    else if p.ext.object_ == OBJ_CONSOLE_DISCONN then Step(nodeid, s, Disconnect, true)
    else s
  }

  /** And afterwards an answer for the owner's object is taken: an ACK, or a NAK, of which only a message is printed. */
  function OutputAfter(nodeid: nat, s: Output, p: Packet, said: Message, room: bool): Output {
    var t := OutputDispatch(nodeid, s, p);
    if Unconnected(t.rmt) || p.ext.object_ != t.rmt.object_ then t
    else if p.ext.kind == TYPE_ACK then Step(nodeid, t, Ack(said), room)
    else if p.ext.kind == TYPE_NAK then Step(nodeid, t, Printk(said.text), said.room)
    else t
  }

  /** The characters a DAT packet is taken to hold, by its length field alone: up to eleven, although it has four.
      `beyond` is what follows the packet in memory. */
  function Characters(p: Packet, beyond: seq<Byte>): seq<Byte>
    requires |beyond| >= 7
  {
    (Bytes4(p.dat) + beyond)[..if p.can.length <= 4 then 0 else p.can.length - 4]
  }

  /** They are the packet's own exactly when the length is at most eight. */
  lemma CharactersOwn(p: Packet)
    ensures (forall a, b :: |a| >= 7 && |b| >= 7 ==> Characters(p, a) == Characters(p, b)) <==> p.can.length <= 8
  {
    if p.can.length > 8 {
      var a: seq<Byte>, b: seq<Byte> := [0, 0, 0, 0, 0, 0, 0], [1, 1, 1, 1, 1, 1, 1];
      assert Characters(p, a)[4] != Characters(p, b)[4];
    } else {
      forall a, b | |a| >= 7 && |b| >= 7
        ensures Characters(p, a) == Characters(p, b)
      {
        var n := if p.can.length <= 4 then 0 else p.can.length - 4;
        assert (Bytes4(p.dat) + a)[..n] == Bytes4(p.dat)[..n] == (Bytes4(p.dat) + b)[..n];
      }
    }
  }

  /** An acknowledgement lets the next packet go exactly when it is for the owner's object; any other answer leaves the
      output alone. */
  lemma AnswersAndOutput(nodeid: nat, s: Output, p: Packet, said: Message, room: bool)
    requires p.ext.kind == TYPE_ACK || p.ext.kind == TYPE_NAK
    ensures var t := OutputAfter(nodeid, s, p, said, room);
            var forOwner := !Unconnected(s.rmt) && p.ext.object_ == s.rmt.object_;
            && t.rmt == s.rmt
            && (!forOwner ==> t == s)
            && (p.ext.kind == TYPE_ACK && forOwner && s.pending ==>
                  TakesNext(nodeid, s.(pending := false, timer := false), s.out, t, room))
  {
    SendTakes(nodeid, Acknowledged(s), room);
  }

  /** The owner that the output state ends with is the one the handlers for the owner end with; a packet that is no
      answer leaves the output alone, except that a disconnection empties the queue. */
  lemma OwnerAndOutput(nodeid: nat, s: Output, prom: string, p: Packet, said: Message, room: bool)
    requires p.ext.kind != TYPE_ACK && p.ext.kind != TYPE_NAK
    ensures var t := OutputAfter(nodeid, s, p, said, room);
            var ends := !Unconnected(s.rmt) && p.ext.object_ == OBJ_CONSOLE_DISCONN && p.ext.kind == TYPE_WO;
            && t.rmt == HandlePacket(nodeid, Owner(s.rmt, prom), p).owner.rmt
            && t == s.(rmt := t.rmt, out := if ends then [] else s.out, fates := t.fates)
            && (!ends ==> t.fates == s.fates)
  {
  }

  /** The characters are the four bytes of the data word, the most significant first, and then what follows. */
  lemma CharactersAre(p: Packet, beyond: seq<Byte>, k: nat)
    requires |beyond| >= 7 && k + 4 < p.can.length
    ensures |Characters(p, beyond)| == p.can.length - 4
    ensures Characters(p, beyond)[k] ==
            if k == 0 then p.dat / 0x100_0000 else if k == 1 then p.dat / 0x1_0000 % 256
            else if k == 2 then p.dat / 256 % 256 else if k == 3 then p.dat % 256 else beyond[k - 4]
  {
  }

  /** What becomes of the characters queued for the terminal, of which `up` are passed up and `left` stay: a
      disconnection empties the queue, a DAT packet adds what fits, and anything else leaves it alone. */
  predicate InputAfter(o: Owner, p: Packet, beyond: seq<Byte>, queued: seq<Byte>, up: seq<Byte>, left: seq<Byte>)
    requires |beyond| >= 7 && |queued| <= MAXRING - 1
  {
    if Unconnected(o.rmt) then up == [] && left == queued
    else if p.ext.object_ == OBJ_CONSOLE_DISCONN && p.ext.kind == TYPE_WO then up == [] && left == []
    else if p.ext.object_ == 0 && p.ext.kind == TYPE_DAT then
      var chars := Characters(p, beyond);
      up + left == queued + chars[..Min(MAXRING - 1 - |queued|, |chars|)]
    else up == [] && left == queued
  }

  class Node {
    const console: Console
    var prom: string
    var replies: seq<Packet>

    ghost predicate Valid()
      reads this, console, console.outbuf, console.outbuf.buf, console.inbuf, console.inbuf.buf
    {
      console.Valid()
    }

    ghost function Who(): Owner
      reads this, console
    {
      Owner(console.rmt, prom)
    }

    /** The owner is read back from the PROM. */
    constructor (nodeid: nat, prom: string)
      ensures Valid() && Who() == Boot(prom) && replies == []
      ensures console.State() == Start(Boot(prom).rmt)
    {
      console := new Console(nodeid, UnpackExt(Parse(prom)));
      this.prom := prom;
      replies := [];
    }

    /** canobj_cancon_host(SET): what is read back at boot is the owner. */
    method SaveOwner()
      modifies this`prom
      ensures prom == PromText(PackExt(console.rmt))
      ensures Parse(prom) == PackExt(console.rmt) && |prom| <= 16 && Boot(prom).rmt == console.rmt
    {
      prom := PromText(PackExt(console.rmt));
      TextRoundTrip(PackExt(console.rmt));
      ExtRoundTrip(console.rmt);
    }

    /** canobj_acknak. */
    method Reply(kind: nat, p: Packet, data: Option<Word>)
      requires kind == TYPE_ACK || kind == TYPE_NAK
      modifies this`replies
      ensures replies == old(replies) + [AckNak(console.nodeid, kind, p, data)]
    {
      replies := replies + [AckNak(console.nodeid, kind, p, data)];
    }

    /** canobj_connect. */
    method ConnectObject(p: Packet) returns (handled: bool)
      requires Valid() && p.ext.object_ == OBJ_CONSOLE_CONNECT
      modifies this`prom, this`replies, console`rmt
      ensures Valid()
      ensures var r := HandleConnect(console.nodeid, old(Who()), p);
              Who() == r.owner && handled == r.handled && replies == old(replies) + Answers(r)
      ensures console.State() ==
              if p.ext.kind == TYPE_WO then Step(console.nodeid, old(console.State()), Connect(UnpackExt(p.dat)), true)
              else old(console.State())
    {
      handled := true;
      if p.ext.kind == TYPE_RO {
        Reply(TYPE_ACK, p, Some(PackExt(console.rmt)));
      } else if p.ext.kind == TYPE_WO {
        if !Unconnected(console.rmt) {
          Reply(TYPE_NAK, p, None);
        } else {
          console.SetCon(Some(UnpackExt(p.dat)));
          SaveOwner();
          Reply(TYPE_ACK, p, Some(PackExt(console.rmt)));
        }
      } else {
        handled := false;
      }
    }

    /** canobj_disconnect. */
    method DisconnectObject(p: Packet) returns (handled: bool)
      requires Valid() && p.ext.object_ == OBJ_CONSOLE_DISCONN
      modifies this`prom, this`replies, console`rmt, console`fates, console.outbuf, console.inbuf
      ensures Valid()
      ensures var r := HandleDisconnect(console.nodeid, old(Who()), p);
              Who() == r.owner && handled == r.handled && replies == old(replies) + Answers(r)
      ensures console.State() ==
              if p.ext.kind == TYPE_WO then Step(console.nodeid, old(console.State()), Disconnect, true)
              else old(console.State())
      ensures console.inbuf.contents ==
              if p.ext.kind == TYPE_WO && !Unconnected(old(console.rmt)) then [] else old(console.inbuf.contents)
    {
      handled := true;
      if p.ext.kind == TYPE_WO {
        if Unconnected(console.rmt) {
          Reply(TYPE_NAK, p, None);
        } else {
          console.SetCon(None);
          SaveOwner();
          Reply(TYPE_ACK, p, None);
          console.Hangup();
        }
      } else {
        handled := false;
      }
    }

    /** canobj_dat: typed characters are acknowledged, queued and passed up. */
    method DatObject(p: Packet, beyond: seq<Byte>, open: bool, flip: nat) returns (handled: bool, up: seq<Byte>)
      requires Valid() && |beyond| >= 7
      modifies this`replies, console.inbuf, console.inbuf.buf
      ensures Valid() && Who() == old(Who()) && console.State() == old(console.State())
      ensures var r := HandleDat(console.nodeid, old(Who()), p);
              handled == r.handled && replies == old(replies) + Answers(r)
      ensures !handled ==> up == [] && console.inbuf.contents == old(console.inbuf.contents)
      ensures handled ==>
                var queued, chars := old(console.inbuf.contents), Characters(p, beyond);
                |queued| <= MAXRING - 1 &&
                up + console.inbuf.contents == queued + chars[..Min(MAXRING - 1 - |queued|, |chars|)]
    {
      handled, up := false, [];
      if !Unconnected(console.rmt) && p.ext.kind == TYPE_DAT {
        Reply(TYPE_ACK, p, None);
        up := console.RecvDat(Characters(p, beyond), open, flip);
        handled := true;
      }
    }

    method DispatchObject(p: Packet, beyond: seq<Byte>, open: bool, flip: nat)
        returns (handled: bool, up: seq<Byte>)
      requires Valid() && |beyond| >= 7
      modifies this`prom, this`replies, console, console.outbuf, console.inbuf, console.inbuf.buf
      ensures Valid()
      ensures var r := Dispatch(console.nodeid, old(Who()), p);
              Who() == r.owner && handled == r.handled && replies == old(replies) + Answers(r)
      ensures console.State() == OutputDispatch(console.nodeid, old(console.State()), p)
      ensures |old(console.inbuf.contents)| <= MAXRING - 1 &&
              InputAfter(old(Who()), p, beyond, old(console.inbuf.contents), up, console.inbuf.contents)
    {
      console.inbuf.Bounded();
      handled, up := false, [];
      if p.ext.object_ == OBJ_CONSOLE_CONNECT {
        handled := ConnectObject(p);
      } else if p.ext.object_ == OBJ_CONSOLE_DISCONN {
        handled := DisconnectObject(p);
      } else if p.ext.object_ == 0 {
        handled, up := DatObject(p, beyond, open, flip);
      }
    }

    /** canobj_consobj. */
    method ConsoleObject(p: Packet, said: Message, room: bool) returns (handled: bool)
      requires Valid()
      modifies console, console.outbuf, console.outbuf.buf
      ensures Valid() && console.rmt == old(console.rmt)
      ensures handled <==> p.ext.kind == TYPE_ACK || p.ext.kind == TYPE_NAK
      ensures console.State() ==
              var s := old(console.State());
              if p.ext.kind == TYPE_ACK then RecvAck(console.nodeid, s, false, said, room)
              else if p.ext.kind == TYPE_NAK then PrintkWrite(console.nodeid, s, said.text, said.room)
              else s
    {
      handled := true;
      if p.ext.kind == TYPE_ACK {
        console.RecvAck(false, said, room);
      } else if p.ext.kind == TYPE_NAK {
        console.PrintkWrite(said.text, said.room);
      } else {
        handled := false;
      }
    }

    /** canobj_packet for the objects that have to do with the console. */
    method PacketArrives(p: Packet, beyond: seq<Byte>, said: Message, room: bool, open: bool, flip: nat)
        returns (handled: bool, up: seq<Byte>)
      requires Valid() && |beyond| >= 7
      modifies this`prom, this`replies, console, console.outbuf, console.outbuf.buf, console.inbuf, console.inbuf.buf
      ensures Valid()
      ensures var r := HandlePacket(console.nodeid, old(Who()), p);
              Who() == r.owner && handled == r.handled && replies == old(replies) + Answers(r)
      ensures console.State() == OutputAfter(console.nodeid, old(console.State()), p, said, room)
      ensures |old(console.inbuf.contents)| <= MAXRING - 1 &&
              InputAfter(old(Who()), p, beyond, old(console.inbuf.contents), up, console.inbuf.contents)
    {
      ghost var s := console.State();
      handled, up := DispatchObject(p, beyond, open, flip);
      ghost var t := console.State();
      if !Unconnected(console.rmt) && p.ext.object_ == console.rmt.object_ {
        handled := ConsoleObject(p, said, room);
      }
      AfterDispatch(console.nodeid, s, p, said, room, t, console.State());
    }
  }

  lemma AfterDispatch(nodeid: nat, s: Output, p: Packet, said: Message, room: bool, t: Output, u: Output)
    requires t == OutputDispatch(nodeid, s, p)
    requires u == if Unconnected(t.rmt) || p.ext.object_ != t.rmt.object_ then t
                  else if p.ext.kind == TYPE_ACK then RecvAck(nodeid, t, false, said, room)
                  else if p.ext.kind == TYPE_NAK then PrintkWrite(nodeid, t, said.text, said.room)
                  else t
    ensures u == OutputAfter(nodeid, s, p, said, room)
  {
  }

  function Answers(r: Outcome): seq<Packet> {
    if r.reply.Some? then [r.reply.value] else []
  }
}
