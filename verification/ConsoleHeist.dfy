/** Taking a console over from another client, against a network that loses packets and a target that serves others at
    any time.
*/
module ConsoleHeist {
  import opened CanPacket
  import opened ConsoleOutput
  import opened ConsoleOwner
  import Clients = ConsoleClients

  const MAX_RETRIES := Clients.MAX_RETRIES
  const POLLS := 5

  datatype Response = Acked | Refused | TimedOut

  /** What the world does with one packet sent: the target goes through `before`, serves the packet if it arrives, goes
      through `after`, and the answer comes back or not. A packet for someone else than the target is answered with
      `other`. */
  datatype Fate = Fate(before: seq<Incident>, arrives: bool, after: seq<Incident>, comesBack: bool, other: Response)

  /** What becomes of the n-th packet; after those listed every packet is answered at once. */
  function FateOf(fates: seq<Fate>, n: nat): Fate {
    if n < |fates| then fates[n] else Fate([], true, [], true, Acked)
  }

  // ---------------------------------------------------------------------------------------------------------------
  // The client as functions.

  /** The target's owner, how many packets the client has sent, and every owner the target has had since the client
      started. */
  datatype World = World(owner: Owner, sent: nat, seen: seq<Owner>) {
    ghost predicate Valid() {
      seen != [] && seen[|seen| - 1] == owner
    }
  }

  datatype Reply = Reply(world: World, response: Response, data: Word)

  /** The target deals with one more packet or reboot. */
  function Advanced(nodeid: nat, w: World, e: Incident): World {
    var o := Advance(nodeid, w.owner, e);
    w.(owner := o, seen := w.seen + [o])
  }

  function AfterAll(nodeid: nat, w: World, es: seq<Incident>): World
    decreases |es|
  {
    if es == [] then w else AfterAll(nodeid, Advanced(nodeid, w, es[0]), es[1..])
  }

  /** The target serves the client's packet. */
  function ServeOf(nodeid: nat, w: World, p: Packet): Reply {
    var r := HandlePacket(nodeid, w.owner, p).reply;
    var w' := Advanced(nodeid, w, Arrive(p));
    if r.None? then Reply(w', TimedOut, 0)
    else Reply(w', if r.value.ext.kind == TYPE_ACK then Acked else Refused, r.value.dat)
  }

  function TravelOf(nodeid: nat, w: World, p: Packet, toTarget: bool, fate: Fate): Reply {
    if !toTarget then Reply(w, fate.other, 0)
    else if !fate.arrives then Reply(w, TimedOut, 0)
    else
      var r := ServeOf(nodeid, w, p);
      if fate.comesBack then r else r.(response := TimedOut)
  }

  /** One packet and its answer, when what is returned is the answer to this very packet. */
  function ExchangeOf(nodeid: nat, fates: seq<Fate>, w: World, p: Packet, toTarget: bool): Reply {
    var fate := FateOf(fates, w.sent);
    var r := TravelOf(nodeid, AfterAll(nodeid, w.(sent := w.sent + 1), fate.before), p, toTarget, fate);
    r.(world := AfterAll(nodeid, r.world, fate.after))
  }

  /** mysend from its given try on. */
  function SendOf(nodeid: nat, fates: seq<Fate>, w: World, p: Packet, toTarget: bool, maxRetries: nat, try: nat): Reply
    decreases maxRetries - try, w.sent
  {
    var r := ExchangeOf(nodeid, fates, w, p, toTarget);
    if r.response != Acked && try < maxRetries then SendOf(nodeid, fates, r.world, p, toTarget, maxRetries, try + 1)
    else r
  }

  /** load_ext_ch, can_send. */
  function ToTarget(target: ExtHeader, kind: nat, object_: nat, dat: Word): Packet
    requires kind < 8 && object_ < 1024
  {
    Packet(0, CanFields(0, target.node % 32, 0, 0, 8), target.(kind := kind, object_ := object_), dat)
  }

  /** send_connect(CANTYPE_RO). */
  function ReadOf(nodeid: nat, target: ExtHeader, fates: seq<Fate>, w: World): Reply {
    SendOf(nodeid, fates, w, ToTarget(target, TYPE_RO, OBJ_CONSOLE_CONNECT, 0), true, MAX_RETRIES, 1)
  }

  /** send_disconnect. */
  function DisconnectOf(nodeid: nat, target: ExtHeader, fates: seq<Fate>, w: World, rmt: ExtHeader): Reply {
    SendOf(nodeid, fates, w, ToTarget(target, TYPE_WO, OBJ_CONSOLE_DISCONN, PackExt(rmt)), true, MAX_RETRIES, 1)
  }

  /** send_force_disconnect_nb. */
  function ForceOf(nodeid: nat, fates: seq<Fate>, w: World, oldcon: ExtHeader): Reply {
    SendOf(nodeid, fates, w, ForcePacket(oldcon), false, 0, 1)
  }

  function ForcePacket(oldcon: ExtHeader): Packet {
    Packet(0, CanFields(0, 0, 0, 0, 8), oldcon.(kind := TYPE_WO, object_ := OBJ_FORCE_DISCONN), PackExt(oldcon))
  }

  /** The loop of heist_connection after `try` readings, and what follows it. */
  function PollOf(nodeid: nat, target: ExtHeader, fates: seq<Fate>, w: World, try: nat): (World, bool)
    decreases POLLS - try, w.sent
  {
    var r := ReadOf(nodeid, target, fates, w);
    var rmt := UnpackExt(r.data);
    if r.response == Acked && !Unconnected(rmt) && try + 1 < POLLS then PollOf(nodeid, target, fates, r.world, try + 1)
    else PollEnd(nodeid, target, fates, r.world, r.response == Acked, rmt, try + 1)
  }

  /** After the last reading, the `try`-th, which was answered or not. */
  function PollEnd(nodeid: nat, target: ExtHeader, fates: seq<Fate>, w: World, read: bool, rmt: ExtHeader, try: nat):
      (World, bool)
  {
    if !read then (w, false)
    else if try < POLLS then (w, true)
    else
      var d := DisconnectOf(nodeid, target, fates, w, rmt);
      (d.world, d.response == Acked)
  }

  /** What is still to come after `try` readings, of which the last was answered or not. */
  function PollRest(nodeid: nat, target: ExtHeader, fates: seq<Fate>, w: World, again: bool, read: bool,
                    rmt: ExtHeader, try: nat): (World, bool)
  {
    if again then PollOf(nodeid, target, fates, w, try) else PollEnd(nodeid, target, fates, w, read, rmt, try)
  }

  /** heist_connection. */
  function HeistOf(nodeid: nat, target: ExtHeader, fates: seq<Fate>, w: World, oldcon: ExtHeader): (World, bool) {
    var f := ForceOf(nodeid, fates, w, oldcon);
    if f.response == Acked then PollOf(nodeid, target, fates, f.world, 0)
    else
      var d := DisconnectOf(nodeid, target, fates, f.world, oldcon);
      if d.response == Acked then PollOf(nodeid, target, fates, d.world, 0) else (d.world, false)
  }

  // ---------------------------------------------------------------------------------------------------------------
  // The client at work.

  /** One client at work, and the target it works on. `seen` is every owner the target has had as it went through
      `incidents` from `start`. */
  class Thief {
    const nodeid: nat
    const target: ExtHeader
    const fates: seq<Fate>
    var owner: Owner
    var sent: nat
    ghost const start: Owner
    ghost var incidents: seq<Incident>
    ghost var seen: seq<Owner>

    ghost predicate Valid()
      reads this
    {
      seen == History(nodeid, start, incidents) && seen[|seen| - 1] == owner
    }

    ghost function State(): World
      reads this
    {
      World(owner, sent, seen)
    }

    constructor (nodeid: nat, target: ExtHeader, fates: seq<Fate>, owner: Owner)
      ensures Valid() && State() == World(owner, 0, [owner])
      ensures this.nodeid == nodeid && this.target == target && this.fates == fates
    {
      this.nodeid, this.target, this.fates, this.owner := nodeid, target, fates, owner;
      sent, start, incidents, seen := 0, owner, [], [owner];
    }

    /** The target deals with one more packet or reboot. */
    method Happen(e: Incident)
      requires Valid()
      modifies this`owner, this`incidents, this`seen
      ensures Valid() && State() == Advanced(nodeid, old(State()), e)
    {
      HistoryGrows(nodeid, start, incidents, e);
      owner := Advance(nodeid, owner, e);
      incidents := incidents + [e];
      seen := seen + [owner];
    }

    method HappenAll(es: seq<Incident>)
      requires Valid()
      modifies this`owner, this`incidents, this`seen
      ensures Valid() && State() == AfterAll(nodeid, old(State()), es)
    {
      var i := 0;
      while i < |es|
        invariant Valid() && i <= |es|
        invariant AfterAll(nodeid, State(), es[i..]) == AfterAll(nodeid, old(State()), es)
      {
        assert es[i..][1..] == es[i + 1..];
        Happen(es[i]);
        i := i + 1;
      }
    }

    /** The target serves the client's packet. */
    method Serve(p: Packet) returns (response: Response, data: Word)
      requires Valid()
      modifies this`owner, this`incidents, this`seen
      ensures Valid() && Reply(State(), response, data) == ServeOf(nodeid, old(State()), p)
    {
      var answer := HandlePacket(nodeid, owner, p).reply;
      Happen(Arrive(p));
      response, data := TimedOut, 0;
      if answer.Some? {
        response := if answer.value.ext.kind == TYPE_ACK then Acked else Refused;
        data := answer.value.dat;
      }
    }

    /** The client's packet travels, and the answer to it. */
    method Travel(p: Packet, toTarget: bool, fate: Fate) returns (response: Response, data: Word)
      requires Valid()
      modifies this`owner, this`incidents, this`seen
      ensures Valid() && Reply(State(), response, data) == TravelOf(nodeid, old(State()), p, toTarget, fate)
    {
      response, data := TimedOut, 0;
      if !toTarget {
        response := fate.other;
      } else if fate.arrives {
        response, data := Serve(p);
        if !fate.comesBack {
          response := TimedOut;
        }
      }
    }

    /** can_send and waitfor_acknak. */
    method Exchange(p: Packet, toTarget: bool) returns (response: Response, data: Word)
      requires Valid()
      modifies this`owner, this`incidents, this`seen, this`sent
      ensures Valid() && Reply(State(), response, data) == ExchangeOf(nodeid, fates, old(State()), p, toTarget)
    {
      ghost var w := State();
      var fate := FateOf(fates, sent);
      sent := sent + 1;
      assert State() == w.(sent := w.sent + 1);
      HappenAll(fate.before);
      ghost var w1 := State();
      response, data := Travel(p, toTarget, fate);
      ghost var r := TravelOf(nodeid, w1, p, toTarget, fate);
      HappenAll(fate.after);
      assert State() == AfterAll(nodeid, r.world, fate.after);
    }

    /** mysend: at least one try, and after a failure another one as long as fewer than `maxRetries` were made. */
    method MySend(p: Packet, toTarget: bool, maxRetries: nat) returns (response: Response, data: Word)
      requires Valid()
      modifies this`owner, this`incidents, this`seen, this`sent
      ensures Valid()
      ensures Reply(State(), response, data) == SendOf(nodeid, fates, old(State()), p, toTarget, maxRetries, 1)
    {
      var try := 1;
      response, data := Exchange(p, toTarget);
      while response != Acked && try < maxRetries
        invariant Valid()
        invariant SendOf(nodeid, fates, old(State()), p, toTarget, maxRetries, 1) ==
                  if response != Acked && try < maxRetries
                  then SendOf(nodeid, fates, State(), p, toTarget, maxRetries, try + 1)
                  else Reply(State(), response, data)
        decreases maxRetries - try
      {
        try := try + 1;
        response, data := Exchange(p, toTarget);
      }
    }

    /** send_connect(CANTYPE_RO). */
    method ReadOwner() returns (response: Response, rmt: ExtHeader)
      requires Valid()
      modifies this`owner, this`incidents, this`seen, this`sent
      ensures Valid()
      ensures var r := ReadOf(nodeid, target, fates, old(State()));
              r.world == State() && r.response == response && UnpackExt(r.data) == rmt
    {
      var data;
      response, data := MySend(ToTarget(target, TYPE_RO, OBJ_CONSOLE_CONNECT, 0), true, MAX_RETRIES);
      rmt := UnpackExt(data);
    }

    /** send_disconnect. */
    method SendDisconnect(rmt: ExtHeader) returns (response: Response)
      requires Valid()
      modifies this`owner, this`incidents, this`seen, this`sent
      ensures Valid()
      ensures var r := DisconnectOf(nodeid, target, fates, old(State()), rmt);
              r.world == State() && r.response == response
    {
      var data;
      response, data := MySend(ToTarget(target, TYPE_WO, OBJ_CONSOLE_DISCONN, PackExt(rmt)), true, MAX_RETRIES);
    }

    /** heist_connection: the other client is told to disconnect, or if it does not answer the target is; then the
        owner is read until there is none, five times at most, and after the fifth reading the target is told to
        disconnect, whatever was read. At most 141 packets are sent, and success means the console was unconnected at
        a moment of the call. */
    method Heist(oldcon: ExtHeader) returns (ok: bool)
      requires Valid()
      modifies this`owner, this`incidents, this`seen, this`sent
      ensures Valid()
      ensures (State(), ok) == HeistOf(nodeid, target, fates, old(State()), oldcon)
      ensures sent <= old(sent) + 141 && old(seen) <= seen
      ensures ok ==> FreeAmong(seen, |old(seen)|)
    {
      HeistTells(nodeid, target, fates, State(), oldcon);
      var response, _ := MySend(ForcePacket(oldcon), false, 0);
      if response != Acked {
        response := SendDisconnect(oldcon);
        if response != Acked {
          return false;
        }
      }
      ok := Poll();
    }

    /** The loop of heist_connection and what follows it. */
    method Poll() returns (ok: bool)
      requires Valid()
      modifies this`owner, this`incidents, this`seen, this`sent
      ensures Valid() && (State(), ok) == PollOf(nodeid, target, fates, old(State()), 0)
    {
      var again := true;
      var read, rmt, try := false, target, 0;
      ghost var result := PollRest(nodeid, target, fates, State(), true, false, target, try);
      while again
        invariant Valid() && try <= POLLS && (again ==> try < POLLS)
        invariant result == PollRest(nodeid, target, fates, State(), again, read, rmt, try)
        decreases POLLS - try, again
      {
        again, read, rmt := PollOnce(try);
        try := try + 1;
      }
      if !read {
        return false;
      }
      ok := true;
      if try == POLLS {
        var response := SendDisconnect(rmt);
        ok := response == Acked;
      }
    }

    /** One round of the loop. */
    method PollOnce(try: nat) returns (again: bool, read: bool, rmt: ExtHeader)
      requires Valid() && try < POLLS
      modifies this`owner, this`incidents, this`seen, this`sent
      ensures Valid() && (again <==> read && !Unconnected(rmt) && try + 1 < POLLS)
      ensures PollRest(nodeid, target, fates, old(State()), true, false, target, try) ==
              PollRest(nodeid, target, fates, State(), again, read, rmt, try + 1)
    {
      var response;
      response, rmt := ReadOwner();
      read := response == Acked;
      again := read && !Unconnected(rmt) && try + 1 < POLLS;
    }
  }

  lemma {:induction false} HistoryGrows(nodeid: nat, o: Owner, incidents: seq<Incident>, e: Incident)
    ensures var h := History(nodeid, o, incidents);
            History(nodeid, o, incidents + [e]) == h + [Advance(nodeid, h[|h| - 1], e)]
    decreases |incidents|
  {
    if incidents == [] {
      assert (incidents + [e])[1..] == [];
    } else {
      HistoryGrows(nodeid, Advance(nodeid, o, incidents[0]), incidents[1..], e);
      assert (incidents + [e])[1..] == incidents[1..] + [e];
    }
  }

  // ---------------------------------------------------------------------------------------------------------------
  // What happens on any network.

  function OwnerAfter(nodeid: nat, o: Owner, es: seq<Incident>): Owner
    decreases |es|
  {
    if es == [] then o else OwnerAfter(nodeid, Advance(nodeid, o, es[0]), es[1..])
  }

  lemma {:induction false} AfterAllOwner(nodeid: nat, w: World, es: seq<Incident>)
    ensures AfterAll(nodeid, w, es).owner == OwnerAfter(nodeid, w.owner, es)
    ensures AfterAll(nodeid, w, es).sent == w.sent
    decreases |es|
  {
    if es != [] {
      AfterAllOwner(nodeid, Advanced(nodeid, w, es[0]), es[1..]);
    }
  }

  /** One packet: the target is changed by what it goes through before and after, and in between by the packet exactly
      if it arrives; and the answer is what the target answered exactly if it comes back. */
  lemma ExchangeExactly(nodeid: nat, fates: seq<Fate>, w: World, p: Packet, toTarget: bool)
    ensures var fate := FateOf(fates, w.sent);
            var r := ExchangeOf(nodeid, fates, w, p, toTarget);
            var o := OwnerAfter(nodeid, w.owner, fate.before);
            var h := HandlePacket(nodeid, o, p);
            && r.world.owner == OwnerAfter(nodeid, if toTarget && fate.arrives then h.owner else o, fate.after)
            && r.world.sent == w.sent + 1
            && (!toTarget ==> r.response == fate.other)
            && (toTarget ==>
                  if fate.arrives && fate.comesBack && h.reply.Some?
                  then r.response == (if h.reply.value.ext.kind == TYPE_ACK then Acked else Refused)
                       && r.data == h.reply.value.dat
                  else r.response == TimedOut)
  {
    var fate := FateOf(fates, w.sent);
    var w1 := AfterAll(nodeid, w.(sent := w.sent + 1), fate.before);
    AfterAllOwner(nodeid, w.(sent := w.sent + 1), fate.before);
    AfterAllOwner(nodeid, TravelOf(nodeid, w1, p, toTarget, fate).world, fate.after);
  }

  /** The same packet sent again and again: the k-th of these exchanges. */
  function TryAt(nodeid: nat, fates: seq<Fate>, w: World, p: Packet, toTarget: bool, k: nat): Reply
    decreases k, w.sent
  {
    var r := ExchangeOf(nodeid, fates, w, p, toTarget);
    if k == 0 then r else TryAt(nodeid, fates, r.world, p, toTarget, k - 1)
  }

  /** mysend stops at the first try that is acknowledged, and if none is at the last one allowed; one is always made. */
  lemma {:induction false} SendStopsAt(nodeid: nat, fates: seq<Fate>, w: World, p: Packet, toTarget: bool,
                                       maxRetries: nat, try: nat) returns (k: nat)
    ensures SendOf(nodeid, fates, w, p, toTarget, maxRetries, try) == TryAt(nodeid, fates, w, p, toTarget, k)
    ensures forall j: nat :: j < k ==> TryAt(nodeid, fates, w, p, toTarget, j).response != Acked
    ensures k == 0 || try + k <= maxRetries
    ensures TryAt(nodeid, fates, w, p, toTarget, k).response == Acked || try + k >= maxRetries
    decreases maxRetries - try
  {
    k := 0;
    var r := ExchangeOf(nodeid, fates, w, p, toTarget);
    if r.response != Acked && try < maxRetries {
      var later := SendStopsAt(nodeid, fates, r.world, p, toTarget, maxRetries, try + 1);
      k := later + 1;
      forall j: nat | j < k
        ensures TryAt(nodeid, fates, w, p, toTarget, j).response != Acked
      {
        assert j > 0 ==> TryAt(nodeid, fates, w, p, toTarget, j) == TryAt(nodeid, fates, r.world, p, toTarget, j - 1);
      }
    }
  }

  /** The owner read again and again: the k-th of these readings. */
  function ReadAt(nodeid: nat, target: ExtHeader, fates: seq<Fate>, w: World, k: nat): Reply
    decreases k, w.sent
  {
    var r := ReadOf(nodeid, target, fates, w);
    if k == 0 then r else ReadAt(nodeid, target, fates, r.world, k - 1)
  }

  /** A reading that was answered and found the console taken. */
  predicate FoundTaken(r: Reply) {
    r.response == Acked && !Unconnected(UnpackExt(r.data))
  }

  /** The polling stops at the first reading that is not answered or finds the console free, and else at the fifth. It
      fails in the first case and succeeds in the second, unless that is the fifth: after a fifth reading that is
      answered all depends on a disconnection. */
  lemma {:induction false} PollStopsAt(nodeid: nat, target: ExtHeader, fates: seq<Fate>, w: World, try: nat)
      returns (k: nat)
    requires try < POLLS
    ensures try + k < POLLS && forall j: nat :: j < k ==> FoundTaken(ReadAt(nodeid, target, fates, w, j))
    ensures var r := ReadAt(nodeid, target, fates, w, k);
            var result := PollOf(nodeid, target, fates, w, try);
            if r.response != Acked then result == (r.world, false)
            else if try + k + 1 == POLLS then
              var d := DisconnectOf(nodeid, target, fates, r.world, UnpackExt(r.data));
              result == (d.world, d.response == Acked)
            else Unconnected(UnpackExt(r.data)) && result == (r.world, true)
    decreases POLLS - try
  {
    k := 0;
    var r := ReadOf(nodeid, target, fates, w);
    if FoundTaken(r) && try + 1 < POLLS {
      var later := PollStopsAt(nodeid, target, fates, r.world, try + 1);
      k := later + 1;
      forall j: nat | j < k
        ensures FoundTaken(ReadAt(nodeid, target, fates, w, j))
      {
        assert j > 0 ==> ReadAt(nodeid, target, fates, w, j) == ReadAt(nodeid, target, fates, r.world, j - 1);
      }
    }
  }

  /** When neither the other client nor the target acknowledges, the takeover has failed, and nothing is read. */
  lemma GivesUpAtOnce(nodeid: nat, target: ExtHeader, fates: seq<Fate>, w: World, oldcon: ExtHeader)
    ensures var f := ForceOf(nodeid, fates, w, oldcon);
            var d := DisconnectOf(nodeid, target, fates, f.world, oldcon);
            f.response != Acked && d.response != Acked ==>
              HeistOf(nodeid, target, fates, w, oldcon) == (d.world, false)
  {
  }

  // ---------------------------------------------------------------------------------------------------------------
  // What answers tell.

  /** What the acknowledgement of packet p with this data says about the target's states before and after serving it. */
  predicate Tells(o: Owner, o': Owner, p: Packet, data: Word) {
    && (p.ext.object_ == OBJ_CONSOLE_CONNECT && p.ext.kind == TYPE_RO ==> UnpackExt(data) == o.rmt)
    && (p.ext.object_ == OBJ_CONSOLE_DISCONN && p.ext.kind == TYPE_WO ==> Unconnected(o'.rmt))
  }

  lemma AcknowledgementTells(nodeid: nat, o: Owner, p: Packet)
    ensures var r := HandlePacket(nodeid, o, p);
            r.reply.Some? && r.reply.value.ext.kind == TYPE_ACK ==> Tells(o, r.owner, p, r.reply.value.dat)
  {
    if p.ext.object_ == OBJ_CONSOLE_CONNECT || p.ext.object_ == OBJ_CONSOLE_DISCONN {
      AnswersTell(nodeid, o, p);
    }
  }

  predicate InARow(seen: seq<Owner>, k: int, o: Owner, o': Owner) {
    0 <= k < |seen| - 1 && seen[k] == o && seen[k + 1] == o'
  }

  /** In w', some time after w, the target has gone through o and then o', not before it was in w. */
  ghost predicate WentThrough(w: World, w': World, o: Owner, o': Owner) {
    exists k :: |w.seen| <= k + 1 && InARow(w'.seen, k, o, o')
  }

  /** w' comes some time after w. */
  ghost predicate Later(w: World, w': World) {
    w'.Valid() && w.seen <= w'.seen
  }

  lemma LaterStill(w0: World, w: World, w': World, w1: World, o: Owner, o': Owner)
    requires Later(w0, w) && Later(w, w') && Later(w', w1)
    ensures Later(w0, w1)
    ensures WentThrough(w, w', o, o') ==> WentThrough(w0, w1, o, o')
  {
    if WentThrough(w, w', o, o') {
      var k :| |w.seen| <= k + 1 && InARow(w'.seen, k, o, o');
      assert InARow(w1.seen, k, o, o');
    }
  }

  lemma {:induction false} AfterAllLater(nodeid: nat, w: World, es: seq<Incident>)
    requires w.Valid()
    ensures Later(w, AfterAll(nodeid, w, es)) && AfterAll(nodeid, w, es).sent == w.sent
    decreases |es|
  {
    if es != [] {
      AfterAllLater(nodeid, Advanced(nodeid, w, es[0]), es[1..]);
    }
  }

  /** An acknowledged packet was served at a moment of the call, of which its answer tells. */
  lemma ExchangeTells(nodeid: nat, fates: seq<Fate>, w: World, p: Packet, toTarget: bool)
    requires w.Valid()
    ensures var r := ExchangeOf(nodeid, fates, w, p, toTarget);
            && Later(w, r.world) && r.world.sent == w.sent + 1
            && (toTarget && r.response == Acked ==>
                  exists o, o' :: WentThrough(w, r.world, o, o') && Tells(o, o', p, r.data))
  {
    var fate := FateOf(fates, w.sent);
    var w1 := AfterAll(nodeid, w.(sent := w.sent + 1), fate.before);
    AfterAllLater(nodeid, w.(sent := w.sent + 1), fate.before);
    var r := TravelOf(nodeid, w1, p, toTarget, fate);
    AfterAllLater(nodeid, r.world, fate.after);
    var w3 := AfterAll(nodeid, r.world, fate.after);
    if toTarget && fate.arrives {
      ServeTells(nodeid, w1, p);
      LaterStill(w, w1, r.world, w3, w1.owner, r.world.owner);
    }
  }

  lemma ServeTells(nodeid: nat, w: World, p: Packet)
    requires w.Valid()
    ensures var r := ServeOf(nodeid, w, p);
            && Later(w, r.world) && r.world.sent == w.sent && WentThrough(w, r.world, w.owner, r.world.owner)
            && (r.response == Acked ==> Tells(w.owner, r.world.owner, p, r.data))
  {
    AcknowledgementTells(nodeid, w.owner, p);
    assert InARow(ServeOf(nodeid, w, p).world.seen, |w.seen| - 1, w.owner, ServeOf(nodeid, w, p).world.owner);
  }

  lemma {:induction false} SendTells(nodeid: nat, fates: seq<Fate>, w: World, p: Packet, toTarget: bool,
                                     maxRetries: nat, try: nat)
    requires w.Valid()
    ensures var r := SendOf(nodeid, fates, w, p, toTarget, maxRetries, try);
            && Later(w, r.world) && r.world.sent <= w.sent + 1 + (if try < maxRetries then maxRetries - try else 0)
            && (toTarget && r.response == Acked ==>
                  exists o, o' :: WentThrough(w, r.world, o, o') && Tells(o, o', p, r.data))
    decreases maxRetries - try
  {
    ExchangeTells(nodeid, fates, w, p, toTarget);
    var r := ExchangeOf(nodeid, fates, w, p, toTarget);
    if r.response != Acked && try < maxRetries {
      SendTells(nodeid, fates, r.world, p, toTarget, maxRetries, try + 1);
      var last := SendOf(nodeid, fates, r.world, p, toTarget, maxRetries, try + 1);
      if toTarget && last.response == Acked {
        var o, o' :| WentThrough(r.world, last.world, o, o') && Tells(o, o', p, last.data);
        LaterStill(w, r.world, last.world, last.world, o, o');
      }
    }
  }

  /** The console was unconnected in the state before `start` or a later one. */
  ghost predicate FreeAmong(seen: seq<Owner>, start: nat) {
    exists k :: 0 <= k && start <= k + 1 && k < |seen| && Unconnected(seen[k].rmt)
  }

  lemma FreeAmongLater(w0: World, w: World, w': World, o: Owner, o': Owner)
    requires Later(w0, w) && WentThrough(w, w', o, o') && (Unconnected(o.rmt) || Unconnected(o'.rmt))
    ensures FreeAmong(w'.seen, |w0.seen|)
  {
    var k :| |w.seen| <= k + 1 && InARow(w'.seen, k, o, o');
    assert Unconnected(w'.seen[k].rmt) || Unconnected(w'.seen[k + 1].rmt);
  }

  /** What is read is the owner at a moment of the call. */
  lemma ReadTells(nodeid: nat, target: ExtHeader, fates: seq<Fate>, w0: World, w: World)
    requires w.Valid() && Later(w0, w)
    ensures var r := ReadOf(nodeid, target, fates, w);
            && Later(w, r.world) && r.world.sent <= w.sent + MAX_RETRIES
            && (r.response == Acked && Unconnected(UnpackExt(r.data)) ==> FreeAmong(r.world.seen, |w0.seen|))
  {
    var p := ToTarget(target, TYPE_RO, OBJ_CONSOLE_CONNECT, 0);
    SendTells(nodeid, fates, w, p, true, MAX_RETRIES, 1);
    var r := ReadOf(nodeid, target, fates, w);
    if r.response == Acked && Unconnected(UnpackExt(r.data)) {
      var o, o' :| WentThrough(w, r.world, o, o') && Tells(o, o', p, r.data);
      FreeAmongLater(w0, w, r.world, o, o');
    }
  }

  /** An acknowledged disconnection left the console unconnected at a moment of the call. */
  lemma DisconnectTells(nodeid: nat, target: ExtHeader, fates: seq<Fate>, w0: World, w: World, rmt: ExtHeader)
    requires w.Valid() && Later(w0, w)
    ensures var r := DisconnectOf(nodeid, target, fates, w, rmt);
            && Later(w, r.world) && r.world.sent <= w.sent + MAX_RETRIES
            && (r.response == Acked ==> FreeAmong(r.world.seen, |w0.seen|))
  {
    var p := ToTarget(target, TYPE_WO, OBJ_CONSOLE_DISCONN, PackExt(rmt));
    SendTells(nodeid, fates, w, p, true, MAX_RETRIES, 1);
    var r := DisconnectOf(nodeid, target, fates, w, rmt);
    if r.response == Acked {
      var o, o' :| WentThrough(w, r.world, o, o') && Tells(o, o', p, r.data);
      FreeAmongLater(w0, w, r.world, o, o');
    }
  }

  lemma {:induction false} PollTells(nodeid: nat, target: ExtHeader, fates: seq<Fate>, w0: World, w: World, try: nat)
    requires w.Valid() && Later(w0, w) && try < POLLS
    ensures var (w', ok) := PollOf(nodeid, target, fates, w, try);
            && Later(w0, w') && w'.sent <= w.sent + (POLLS - try + 1) * MAX_RETRIES
            && (ok ==> FreeAmong(w'.seen, |w0.seen|))
    decreases POLLS - try
  {
    ReadTells(nodeid, target, fates, w0, w);
    var r := ReadOf(nodeid, target, fates, w);
    var rmt := UnpackExt(r.data);
    if r.response == Acked && !Unconnected(rmt) && try + 1 < POLLS {
      PollTells(nodeid, target, fates, w0, r.world, try + 1);
    } else if r.response == Acked && try + 1 == POLLS {
      DisconnectTells(nodeid, target, fates, w0, r.world, rmt);
    }
  }

  /** heist_connection sends at most 141 packets, and success means the console was unconnected at a moment of the
      call. */
  lemma HeistTells(nodeid: nat, target: ExtHeader, fates: seq<Fate>, w: World, oldcon: ExtHeader)
    requires w.Valid()
    ensures var (w', ok) := HeistOf(nodeid, target, fates, w, oldcon);
            && w'.sent <= w.sent + 141 && w.seen <= w'.seen
            && (ok ==> FreeAmong(w'.seen, |w.seen|))
  {
    SendTells(nodeid, fates, w, ForcePacket(oldcon), false, 0, 1);
    var f := ForceOf(nodeid, fates, w, oldcon);
    if f.response == Acked {
      PollTells(nodeid, target, fates, w, f.world, 0);
    } else {
      DisconnectTells(nodeid, target, fates, w, f.world, oldcon);
      var d := DisconnectOf(nodeid, target, fates, f.world, oldcon);
      if d.response == Acked {
        PollTells(nodeid, target, fates, w, d.world, 0);
      }
    }
  }

  // ---------------------------------------------------------------------------------------------------------------
  // When a takeover succeeds.

  /** No packet to the target and no answer of it is lost. */
  predicate AllAnswered(fates: seq<Fate>) {
    forall fate :: fate in fates ==> fate.arrives && fate.comesBack
  }

  /** The owner when packet first + n is served, if the packets from `first` on that were served before changed nothing:
      what the target went through meanwhile has. */
  function AtService(nodeid: nat, fates: seq<Fate>, o: Owner, first: nat, n: nat): Owner
    decreases n, first
  {
    if n == 0 then OwnerAfter(nodeid, o, FateOf(fates, first).before)
    else AtService(nodeid, fates, Passed(nodeid, fates, o, first), first + 1, n - 1)
  }

  /** The owner after the n-th packet and all that went on around it, if that packet changed nothing. */
  function Passed(nodeid: nat, fates: seq<Fate>, o: Owner, n: nat): Owner {
    OwnerAfter(nodeid, OwnerAfter(nodeid, o, FateOf(fates, n).before), FateOf(fates, n).after)
  }

  /** The console is unconnected when packet first + n is served. */
  predicate FreeAt(nodeid: nat, fates: seq<Fate>, o: Owner, first: nat, n: nat) {
    Unconnected(AtService(nodeid, fates, o, first, n).rmt)
  }

  /** It is when one of the packets first + from .. first + to - 1 is served. */
  predicate SomeFree(nodeid: nat, fates: seq<Fate>, o: Owner, first: nat, from: nat, to: int) {
    exists n :: from <= n < to && FreeAt(nodeid, fates, o, first, n)
  }

  predicate SomeTaken(nodeid: nat, fates: seq<Fate>, o: Owner, first: nat, from: nat, to: int) {
    exists n :: from <= n < to && !FreeAt(nodeid, fates, o, first, n)
  }

  lemma Shifted(nodeid: nat, fates: seq<Fate>, o: Owner, first: nat, from: nat, to: int)
    ensures var o' := Passed(nodeid, fates, o, first);
            && SomeFree(nodeid, fates, o', first + 1, from, to) == SomeFree(nodeid, fates, o, first, from + 1, to + 1)
            && SomeTaken(nodeid, fates, o', first + 1, from, to) == SomeTaken(nodeid, fates, o, first, from + 1, to + 1)
  {
    var o' := Passed(nodeid, fates, o, first);
    if SomeFree(nodeid, fates, o', first + 1, from, to) {
      var n :| from <= n < to && FreeAt(nodeid, fates, o', first + 1, n);
      assert FreeAt(nodeid, fates, o, first, n + 1);
    }
    if SomeFree(nodeid, fates, o, first, from + 1, to + 1) {
      var n :| from + 1 <= n < to + 1 && FreeAt(nodeid, fates, o, first, n);
      assert FreeAt(nodeid, fates, o', first + 1, n - 1);
    }
    if SomeTaken(nodeid, fates, o', first + 1, from, to) {
      var n :| from <= n < to && !FreeAt(nodeid, fates, o', first + 1, n);
      assert !FreeAt(nodeid, fates, o, first, n + 1);
    }
    if SomeTaken(nodeid, fates, o, first, from + 1, to + 1) {
      var n :| from + 1 <= n < to + 1 && !FreeAt(nodeid, fates, o, first, n);
      assert !FreeAt(nodeid, fates, o', first + 1, n - 1);
    }
  }

  /** The owner is that after packet w.sent, which changed nothing. */
  ghost predicate Unchanged(nodeid: nat, fates: seq<Fate>, w: World, w': World) {
    w'.owner == Passed(nodeid, fates, w.owner, w.sent) && w'.sent == w.sent + 1
  }

  /** The n-th packet after w was served on a connected console and took it from its owner, whoever that was. */
  ghost predicate Unseated(nodeid: nat, fates: seq<Fate>, w: World, n: nat, w': World) {
    var o := SetOwner(NoOwner(AtService(nodeid, fates, w.owner, w.sent, n).rmt));
    w'.owner == OwnerAfter(nodeid, o, FateOf(fates, w.sent + n).after) && w'.sent == w.sent + n + 1
  }

  lemma ExchangeOwner(nodeid: nat, fates: seq<Fate>, w: World, p: Packet)
    requires AllAnswered(fates)
    ensures var o := AtService(nodeid, fates, w.owner, w.sent, 0);
            var h := HandlePacket(nodeid, o, p);
            var r := ExchangeOf(nodeid, fates, w, p, true);
            && r.world.owner == OwnerAfter(nodeid, h.owner, FateOf(fates, w.sent).after)
            && r.world.sent == w.sent + 1
            && (h.reply.Some? ==>
                  r.response == (if h.reply.value.ext.kind == TYPE_ACK then Acked else Refused)
                  && r.data == h.reply.value.dat)
  {
    ExchangeExactly(nodeid, fates, w, p, true);
  }

  /** A reading takes one packet, changes nothing and tells the owner it was served with. */
  lemma ReadOnce(nodeid: nat, target: ExtHeader, fates: seq<Fate>, w: World)
    requires AllAnswered(fates)
    ensures var r := ReadOf(nodeid, target, fates, w);
            && Unchanged(nodeid, fates, w, r.world)
            && r.response == Acked
            && UnpackExt(r.data) == AtService(nodeid, fates, w.owner, w.sent, 0).rmt
  {
    var p := ToTarget(target, TYPE_RO, OBJ_CONSOLE_CONNECT, 0);
    ExchangeOwner(nodeid, fates, w, p);
    AnswersTell(nodeid, AtService(nodeid, fates, w.owner, w.sent, 0), p);
  }

  /** A disconnection served on a connected console, whoever has it, succeeds; on an unconnected one it is refused and
      changes nothing. */
  lemma DisconnectOnce(nodeid: nat, target: ExtHeader, fates: seq<Fate>, w: World, rmt: ExtHeader)
    requires AllAnswered(fates)
    ensures var p := ToTarget(target, TYPE_WO, OBJ_CONSOLE_DISCONN, PackExt(rmt));
            var r := ExchangeOf(nodeid, fates, w, p, true);
            if FreeAt(nodeid, fates, w.owner, w.sent, 0)
            then r.response == Refused && Unchanged(nodeid, fates, w, r.world)
            else r.response == Acked && Unseated(nodeid, fates, w, 0, r.world)
  {
    ExchangeOwner(nodeid, fates, w, ToTarget(target, TYPE_WO, OBJ_CONSOLE_DISCONN, PackExt(rmt)));
  }

  /** Sent again while it is refused, it succeeds exactly when the console is connected at one of the tries. */
  lemma {:induction false} DisconnectExact(nodeid: nat, target: ExtHeader, fates: seq<Fate>, w: World, rmt: ExtHeader,
                                           try: nat)
    requires AllAnswered(fates) && 1 <= try <= MAX_RETRIES
    ensures var p := ToTarget(target, TYPE_WO, OBJ_CONSOLE_DISCONN, PackExt(rmt));
            SendOf(nodeid, fates, w, p, true, MAX_RETRIES, try).response == Acked <==>
            SomeTaken(nodeid, fates, w.owner, w.sent, 0, MAX_RETRIES - try + 1)
    decreases MAX_RETRIES - try
  {
    DisconnectOnce(nodeid, target, fates, w, rmt);
    if FreeAt(nodeid, fates, w.owner, w.sent, 0) && try < MAX_RETRIES {
      var p := ToTarget(target, TYPE_WO, OBJ_CONSOLE_DISCONN, PackExt(rmt));
      DisconnectExact(nodeid, target, fates, ExchangeOf(nodeid, fates, w, p, true).world, rmt, try + 1);
      Shifted(nodeid, fates, w.owner, w.sent, 0, MAX_RETRIES - try);
    }
  }

  lemma PollStep(nodeid: nat, target: ExtHeader, fates: seq<Fate>, w: World, try: nat) returns (w': World)
    requires AllAnswered(fates) && try < POLLS
    ensures Unchanged(nodeid, fates, w, w')
    ensures PollOf(nodeid, target, fates, w, try) ==
            if try + 1 == POLLS then
              var d := DisconnectOf(nodeid, target, fates, w', AtService(nodeid, fates, w.owner, w.sent, 0).rmt);
              (d.world, d.response == Acked)
            else if FreeAt(nodeid, fates, w.owner, w.sent, 0) then (w', true)
            else PollOf(nodeid, target, fates, w', try + 1)
  {
    ReadOnce(nodeid, target, fates, w);
    w' := ReadOf(nodeid, target, fates, w).world;
  }

  lemma LastExact(nodeid: nat, target: ExtHeader, fates: seq<Fate>, w: World, rmt: ExtHeader)
    requires AllAnswered(fates)
    ensures DisconnectOf(nodeid, target, fates, w, rmt).response == Acked <==>
            SomeTaken(nodeid, fates, w.owner, w.sent, 0, MAX_RETRIES)
  {
    DisconnectExact(nodeid, target, fates, w, rmt, 1);
  }

  /** What polling comes to after `try` readings. */
  predicate PollGoes(nodeid: nat, fates: seq<Fate>, o: Owner, first: nat, try: nat)
    requires try < POLLS
    decreases POLLS - try, first
  {
    var o' := Passed(nodeid, fates, o, first);
    if try + 1 == POLLS then SomeTaken(nodeid, fates, o', first + 1, 0, MAX_RETRIES)
    else FreeAt(nodeid, fates, o, first, 0) || PollGoes(nodeid, fates, o', first + 1, try + 1)
  }

  lemma {:induction false} PollResult(nodeid: nat, target: ExtHeader, fates: seq<Fate>, w: World, try: nat)
    requires AllAnswered(fates) && try < POLLS
    ensures PollOf(nodeid, target, fates, w, try).1 <==> PollGoes(nodeid, fates, w.owner, w.sent, try)
    decreases POLLS - try
  {
    var w' := PollStep(nodeid, target, fates, w, try);
    if try + 1 == POLLS {
      LastExact(nodeid, target, fates, w', AtService(nodeid, fates, w.owner, w.sent, 0).rmt);
    } else {
      PollResult(nodeid, target, fates, w', try + 1);
    }
  }

  lemma {:induction false} PollGoesSo(nodeid: nat, fates: seq<Fate>, o: Owner, first: nat, try: nat)
    requires try < POLLS
    ensures PollGoes(nodeid, fates, o, first, try) <==>
            SomeFree(nodeid, fates, o, first, 0, POLLS - 1 - try) ||
            SomeTaken(nodeid, fates, o, first, POLLS - try, POLLS - try + MAX_RETRIES)
    decreases POLLS - try
  {
    Shifted(nodeid, fates, o, first, POLLS - try - 1, POLLS - try - 1 + MAX_RETRIES);
    if try + 1 < POLLS {
      Shifted(nodeid, fates, o, first, 0, POLLS - 2 - try);
      FirstOrLater(nodeid, fates, o, first, POLLS - 1 - try);
      PollGoesSo(nodeid, fates, Passed(nodeid, fates, o, first), first + 1, try + 1);
    }
  }

  lemma FirstOrLater(nodeid: nat, fates: seq<Fate>, o: Owner, first: nat, to: nat)
    requires to > 0
    ensures SomeFree(nodeid, fates, o, first, 0, to) <==>
            FreeAt(nodeid, fates, o, first, 0) || SomeFree(nodeid, fates, o, first, 1, to)
  {
  }

  /** The exact condition, with every packet answered and others free to disconnect and connect meanwhile: one of the
      first four readings finds the console unconnected, or one of the twenty disconnections that can follow the fifth
      finds it connected. */
  lemma PollExact(nodeid: nat, target: ExtHeader, fates: seq<Fate>, w: World)
    requires AllAnswered(fates)
    ensures PollOf(nodeid, target, fates, w, 0).1 <==>
            SomeFree(nodeid, fates, w.owner, w.sent, 0, POLLS - 1) ||
            SomeTaken(nodeid, fates, w.owner, w.sent, POLLS, POLLS + MAX_RETRIES)
  {
    PollResult(nodeid, target, fates, w, 0);
    PollGoesSo(nodeid, fates, w.owner, w.sent, 0);
  }

  // ---------------------------------------------------------------------------------------------------------------
  // When nobody else connects meanwhile.

  /** Anything but a write of an owner. */
  predicate Unclaiming(e: Incident) {
    match e
    case Reboot => true
    case Arrive(p) => p.ext.kind != TYPE_WO || p.ext.object_ != OBJ_CONSOLE_CONNECT
  }

  predicate NoClaims(fates: seq<Fate>) {
    forall fate, e :: fate in fates && e in fate.before + fate.after ==> Unclaiming(e)
  }

  lemma FreeStep(nodeid: nat, o: Owner, e: Incident)
    requires PromAgrees(o) && Unclaiming(e) && Unconnected(o.rmt)
    ensures Advance(nodeid, o, e) == o
  {
    AdvanceKeepsProm(nodeid, o, e);
  }

  lemma {:induction false} StaysFree(nodeid: nat, o: Owner, es: seq<Incident>)
    requires PromAgrees(o) && forall e :: e in es ==> Unclaiming(e)
    ensures PromAgrees(OwnerAfter(nodeid, o, es))
    ensures Unconnected(o.rmt) ==> OwnerAfter(nodeid, o, es) == o
    decreases |es|
  {
    if es != [] {
      var o' := Advance(nodeid, o, es[0]);
      AdvanceKeepsProm(nodeid, o, es[0]);
      if Unconnected(o.rmt) {
        FreeStep(nodeid, o, es[0]);
      }
      StaysFree(nodeid, o', es[1..]);
    }
  }

  lemma PassedStays(nodeid: nat, fates: seq<Fate>, o: Owner, n: nat)
    requires PromAgrees(o) && NoClaims(fates)
    ensures PromAgrees(Passed(nodeid, fates, o, n))
    ensures FreeAt(nodeid, fates, o, n, 0) ==>
              Passed(nodeid, fates, o, n) == AtService(nodeid, fates, o, n, 0) &&
              FreeAt(nodeid, fates, o, n, 1)
    ensures Unconnected(o.rmt) ==> FreeAt(nodeid, fates, o, n, 0) && Passed(nodeid, fates, o, n) == o
  {
    var before, after := FateOf(fates, n).before, FateOf(fates, n).after;
    forall e
      ensures e in before || e in after ==> Unclaiming(e)
    {
      assert e in before || e in after ==> e in before + after;
    }
    StaysFree(nodeid, o, before);
    StaysFree(nodeid, OwnerAfter(nodeid, o, before), after);
    var next := FateOf(fates, n + 1).before;
    forall e
      ensures e in next ==> Unclaiming(e)
    {
      assert e in next ==> e in next + FateOf(fates, n + 1).after;
    }
    StaysFree(nodeid, Passed(nodeid, fates, o, n), next);
  }

  /** Once free the console stays free. */
  lemma {:induction false} FreeOnceFree(nodeid: nat, fates: seq<Fate>, o: Owner, first: nat, n: nat, m: nat)
    requires PromAgrees(o) && NoClaims(fates) && n <= m
    requires FreeAt(nodeid, fates, o, first, n)
    ensures FreeAt(nodeid, fates, o, first, m)
    decreases m
  {
    PassedStays(nodeid, fates, o, first);
    if n < m {
      var o' := Passed(nodeid, fates, o, first);
      if n == 0 {
        FreeOnceFree(nodeid, fates, o', first + 1, 0, m - 1);
      } else {
        FreeOnceFree(nodeid, fates, o', first + 1, n - 1, m - 1);
      }
    }
  }

  /** Polling then fails exactly when the console is still taken at the fourth reading and free when the disconnection
      after the fifth is served: so, if it was found free at all, exactly when the fifth reading was the first to. */
  lemma PollWithoutClaims(nodeid: nat, target: ExtHeader, fates: seq<Fate>, w: World)
    requires AllAnswered(fates) && NoClaims(fates) && PromAgrees(w.owner)
    ensures PollOf(nodeid, target, fates, w, 0).1 <==>
            FreeAt(nodeid, fates, w.owner, w.sent, 3) || !FreeAt(nodeid, fates, w.owner, w.sent, 5)
  {
    PollExact(nodeid, target, fates, w);
    if SomeFree(nodeid, fates, w.owner, w.sent, 0, 4) {
      var n :| 0 <= n < 4 && FreeAt(nodeid, fates, w.owner, w.sent, n);
      FreeOnceFree(nodeid, fates, w.owner, w.sent, n, 3);
    }
    if SomeTaken(nodeid, fates, w.owner, w.sent, 5, 25) && FreeAt(nodeid, fates, w.owner, w.sent, 5) {
      var n :| 5 <= n < 25 && !FreeAt(nodeid, fates, w.owner, w.sent, n);
      FreeOnceFree(nodeid, fates, w.owner, w.sent, 5, n);
    }
  }

  /** The force packet changes nothing at the target. */
  lemma ForceOnce(nodeid: nat, fates: seq<Fate>, w: World, oldcon: ExtHeader)
    ensures var f := ForceOf(nodeid, fates, w, oldcon);
            f.response == FateOf(fates, w.sent).other && Unchanged(nodeid, fates, w, f.world)
  {
    var fate := FateOf(fates, w.sent);
    var w1 := AfterAll(nodeid, w.(sent := w.sent + 1), fate.before);
    AfterAllOwner(nodeid, w.(sent := w.sent + 1), fate.before);
    AfterAllOwner(nodeid, w1, fate.after);
  }

  /** The exact condition, with every packet answered and nobody else connecting. When the other client answers, the
      takeover succeeds exactly when the console is free by the fourth reading or still taken when the disconnection
      after the fifth is served; otherwise exactly when it is still taken when the first disconnection is served. */
  lemma HeistWithoutClaims(nodeid: nat, target: ExtHeader, fates: seq<Fate>, w: World, oldcon: ExtHeader)
    requires AllAnswered(fates) && NoClaims(fates)
    ensures PromAgrees(w.owner) ==>
              var o := Passed(nodeid, fates, w.owner, w.sent);
              HeistOf(nodeid, target, fates, w, oldcon).1 <==>
              if FateOf(fates, w.sent).other == Acked
              then FreeAt(nodeid, fates, o, w.sent + 1, 3) || !FreeAt(nodeid, fates, o, w.sent + 1, 5)
              else !FreeAt(nodeid, fates, o, w.sent + 1, 0)
  {
    if PromAgrees(w.owner) {
      ForceOnce(nodeid, fates, w, oldcon);
      PassedStays(nodeid, fates, w.owner, w.sent);
      var f := ForceOf(nodeid, fates, w, oldcon);
      if f.response == Acked {
        PollWithoutClaims(nodeid, target, fates, f.world);
      } else {
        DisconnectFirst(nodeid, target, fates, f.world, oldcon);
      }
    }
  }

  lemma DisconnectFirst(nodeid: nat, target: ExtHeader, fates: seq<Fate>, w: World, rmt: ExtHeader)
    requires AllAnswered(fates) && NoClaims(fates) && PromAgrees(w.owner)
    ensures var d := DisconnectOf(nodeid, target, fates, w, rmt);
            && (d.response == Acked <==> !FreeAt(nodeid, fates, w.owner, w.sent, 0))
            && (d.response == Acked ==> PollOf(nodeid, target, fates, d.world, 0).1)
  {
    DisconnectExact(nodeid, target, fates, w, rmt, 1);
    DisconnectOnce(nodeid, target, fates, w, rmt);
    if FreeAt(nodeid, fates, w.owner, w.sent, 0) {
      if SomeTaken(nodeid, fates, w.owner, w.sent, 0, MAX_RETRIES) {
        var n :| 0 <= n < MAX_RETRIES && !FreeAt(nodeid, fates, w.owner, w.sent, n);
        FreeOnceFree(nodeid, fates, w.owner, w.sent, 0, n);
      }
    } else {
      var o := SetOwner(NoOwner(AtService(nodeid, fates, w.owner, w.sent, 0).rmt));
      TextRoundTrip(PackExt(o.rmt));
      forall e
        ensures e in FateOf(fates, w.sent).after ==> Unclaiming(e)
      {
        assert e in FateOf(fates, w.sent).after ==> e in FateOf(fates, w.sent).before + FateOf(fates, w.sent).after;
      }
      StaysFree(nodeid, o, FateOf(fates, w.sent).after);
      PassedStays(nodeid, fates, o, w.sent + 1);
      FreeOnceFree(nodeid, fates, o, w.sent + 1, 0, 3);
      PollWithoutClaims(nodeid, target, fates, DisconnectOf(nodeid, target, fates, w, rmt).world);
    }
  }

  // ---------------------------------------------------------------------------------------------------------------
  // Two runs.

  /** Nothing is lost and the other client answers; before the n-th packet the target goes through before[n]. */
  function Quiet(before: seq<seq<Incident>>): seq<Fate> {
    seq(|before|, n requires 0 <= n < |before| => Fate(before[n], true, [], true, Acked))
  }

  /** As long as nothing happens the owner stays. */
  lemma {:induction false} StaysWhenQuiet(nodeid: nat, fates: seq<Fate>, o: Owner, first: nat, k: nat, n: nat)
    requires k <= n && forall i :: first <= i < first + k ==> FateOf(fates, i).before == FateOf(fates, i).after == []
    ensures AtService(nodeid, fates, o, first, n) == AtService(nodeid, fates, o, first + k, n - k)
    decreases k
  {
    if k > 0 {
      assert FateOf(fates, first).before == FateOf(fates, first).after == [];
      StaysWhenQuiet(nodeid, fates, o, first + 1, k - 1, n - 1);
    }
  }

  /** Nothing happens around a reading of a connected console: polling goes on. */
  lemma PollQuiet(nodeid: nat, target: ExtHeader, fates: seq<Fate>, w: World, try: nat) returns (w': World)
    requires AllAnswered(fates) && try + 1 < POLLS && !Unconnected(w.owner.rmt)
    requires FateOf(fates, w.sent).before == FateOf(fates, w.sent).after == []
    ensures w'.owner == w.owner && w'.sent == w.sent + 1
    ensures PollOf(nodeid, target, fates, w, try) == PollOf(nodeid, target, fates, w', try + 1)
  {
    w' := PollStep(nodeid, target, fates, w, try);
  }

  lemma {:induction false} PollQuietUntil(nodeid: nat, target: ExtHeader, fates: seq<Fate>, w: World, try: nat,
                                          last: nat) returns (w': World)
    requires AllAnswered(fates) && try <= last < POLLS && !Unconnected(w.owner.rmt)
    requires forall i :: w.sent <= i < w.sent + last - try ==>
               FateOf(fates, i).before == FateOf(fates, i).after == []
    ensures w'.owner == w.owner && w'.sent == w.sent + last - try
    ensures PollOf(nodeid, target, fates, w, try) == PollOf(nodeid, target, fates, w', last)
    decreases last - try
  {
    if try == last {
      w' := w;
    } else {
      assert FateOf(fates, w.sent).before == FateOf(fates, w.sent).after == [];
      var w1 := PollQuiet(nodeid, target, fates, w, try);
      w' := PollQuietUntil(nodeid, target, fates, w1, try + 1, last);
    }
  }

  /** The fifth reading, with the console connected when the disconnection after it is served. */
  lemma LastPollUnseats(nodeid: nat, target: ExtHeader, fates: seq<Fate>, w: World)
    requires AllAnswered(fates) && !FreeAt(nodeid, fates, w.owner, w.sent, 1)
    ensures var (w', ok) := PollOf(nodeid, target, fates, w, POLLS - 1);
            ok && w'.owner == OwnerAfter(nodeid, SetOwner(NoOwner(AtService(nodeid, fates, w.owner, w.sent, 1).rmt)),
                                         FateOf(fates, w.sent + 1).after)
  {
    var w1 := PollStep(nodeid, target, fates, w, POLLS - 1);
    LastUnseats(nodeid, target, fates, w1, AtService(nodeid, fates, w.owner, w.sent, 0).rmt);
  }

  lemma LastUnseats(nodeid: nat, target: ExtHeader, fates: seq<Fate>, w: World, rmt: ExtHeader)
    requires AllAnswered(fates) && !FreeAt(nodeid, fates, w.owner, w.sent, 0)
    ensures var d := DisconnectOf(nodeid, target, fates, w, rmt);
            d.response == Acked && Unseated(nodeid, fates, w, 0, d.world)
  {
    DisconnectOnce(nodeid, target, fates, w, rmt);
  }

  /** The other client's disconnection is served just before the fifth reading: the reading finds the console free, and
      the takeover is reported as failed. */
  lemma LateSuccessRefused(nodeid: nat, target: ExtHeader, rmt: ExtHeader, p: Packet, oldcon: ExtHeader)
    requires !Unconnected(rmt) && p.ext.kind == TYPE_WO && p.ext.object_ == OBJ_CONSOLE_DISCONN
    ensures var fates := Quiet([[], [], [], [], [], [Arrive(p)]]);
            var o := Passed(nodeid, fates, SetOwner(rmt), 0);
            && !FreeAt(nodeid, fates, o, 1, 3) && FreeAt(nodeid, fates, o, 1, 4)
            && !HeistOf(nodeid, target, fates, World(SetOwner(rmt), 0, [SetOwner(rmt)]), oldcon).1
  {
    var fates := Quiet([[], [], [], [], [], [Arrive(p)]]);
    var o := SetOwner(rmt);
    TextRoundTrip(PackExt(rmt));
    assert FateOf(fates, 0).before == [] && FateOf(fates, 1).before == [];
    assert Passed(nodeid, fates, o, 0) == o;
    FreedAtFive(nodeid, fates, o, p);
    assert NoClaims(fates);
    FreeOnceFree(nodeid, fates, o, 1, 4, 5);
    HeistWithoutClaims(nodeid, target, fates, World(o, 0, [o]), oldcon);
  }

  lemma FreedAtFive(nodeid: nat, fates: seq<Fate>, o: Owner, p: Packet)
    requires !Unconnected(o.rmt) && p.ext.kind == TYPE_WO && p.ext.object_ == OBJ_CONSOLE_DISCONN
    requires forall i :: 0 <= i < 5 ==> FateOf(fates, i).before == FateOf(fates, i).after == []
    requires FateOf(fates, 5).before == [Arrive(p)] && FateOf(fates, 5).after == []
    ensures forall n :: 0 <= n < 4 ==> !FreeAt(nodeid, fates, o, 1, n)
    ensures FreeAt(nodeid, fates, o, 1, 4)
    ensures AtService(nodeid, fates, o, 1, 5) == AtService(nodeid, fates, SetOwner(NoOwner(o.rmt)), 6, 0)
    ensures AtService(nodeid, fates, o, 5, 1) == AtService(nodeid, fates, SetOwner(NoOwner(o.rmt)), 6, 0)
  {
    forall n | 0 <= n < 4
      ensures !FreeAt(nodeid, fates, o, 1, n)
    {
      StaysWhenQuiet(nodeid, fates, o, 1, n, n);
      assert FateOf(fates, 1 + n).before == [];
    }
    var freed := SetOwner(NoOwner(o.rmt));
    assert Advance(nodeid, o, Arrive(p)) == freed;
    assert OwnerAfter(nodeid, o, [Arrive(p)]) == freed by {
      assert [Arrive(p)][1..] == [];
    }
    StaysWhenQuiet(nodeid, fates, o, 1, 4, 4);
    StaysWhenQuiet(nodeid, fates, o, 1, 4, 5);
  }

  /** And when in between a newcomer connects, the takeover is reported as done, and it is the newcomer that is out. */
  lemma NewcomerUnseated(nodeid: nat, target: ExtHeader, rmt: ExtHeader, p: Packet, q: Packet, oldcon: ExtHeader)
    requires !Unconnected(rmt) && p.ext.kind == TYPE_WO && p.ext.object_ == OBJ_CONSOLE_DISCONN
    requires q.ext.kind == TYPE_WO && q.ext.object_ == OBJ_CONSOLE_CONNECT && !Unconnected(UnpackExt(q.dat))
    ensures var fates := Quiet([[], [], [], [], [], [Arrive(p)], [Arrive(q)]]);
            var o := Passed(nodeid, fates, SetOwner(rmt), 0);
            var (w, ok) := HeistOf(nodeid, target, fates, World(SetOwner(rmt), 0, [SetOwner(rmt)]), oldcon);
            && FreeAt(nodeid, fates, o, 1, 4)
            && AtService(nodeid, fates, o, 1, 5).rmt == UnpackExt(q.dat)
            && ok && Unconnected(w.owner.rmt)
  {
    var fates := Quiet([[], [], [], [], [], [Arrive(p)], [Arrive(q)]]);
    var o := SetOwner(rmt);
    assert FateOf(fates, 0).before == [];
    assert Passed(nodeid, fates, o, 0) == o;
    FreedAtFive(nodeid, fates, o, p);
    var freed := SetOwner(NoOwner(o.rmt));
    assert OwnerAfter(nodeid, freed, [Arrive(q)]) == SetOwner(UnpackExt(q.dat)) by {
      assert [Arrive(q)][1..] == [];
    }
    ForceOnce(nodeid, fates, World(o, 0, [o]), oldcon);
    var w1 := ForceOf(nodeid, fates, World(o, 0, [o]), oldcon).world;
    var w5 := PollQuietUntil(nodeid, target, fates, w1, 0, 4);
    LastPollUnseats(nodeid, target, fates, w5);
  }
}
