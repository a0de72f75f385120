/** Clients competing for the console of one node, none of them started with -f, none of their waits timing out, and
    each writing the disconnect object once for each session. Requests and answers are delayed arbitrarily.
*/
module ConsoleClients {
  import opened Options
  import opened CanPacket
  import opened ConsoleOutput
  import opened ConsoleOwner

  const MAX_RETRIES := 20

  /** The node a client runs on and the console id the driver gave it. */
  datatype Client = Client(nodeid: nat, consobj: nat) {
    predicate Valid() {
      0x100 <= consobj <= 0x1ff
    }

    /** load_ext_nodeid: what the client writes to become the owner. */
    function Id(): ExtHeader
      requires Valid()
    {
      ExtFields(0, TYPE_DAT, UnpackCluster(nodeid), UnpackModule(nodeid), UnpackNode(nodeid), consobj)
    }
  }

  /** A cluster number unpacked from five bits is never the one that stands for no owner. */
  lemma IdConnected(c: Client)
    requires c.Valid()
    ensures !Unconnected(c.Id())
  {
  }

  datatype Request = Ask | Claim | Leave

  /** Where a client stands: not running; about to send, or waiting for the answer to, the given try of a request; or
      connected. */
  datatype Phase = Off | Ready(req: Request, try: nat) | Waiting(req: Request, try: nat) | Session

  /** The packet a client sends. `target` is the extended address of the node. */
  function RequestPacket(target: ExtHeader, c: Client, r: Request): Packet
    requires c.Valid()
  {
    var ext := target.(kind := if r == Ask then TYPE_RO else TYPE_WO,
                       object_ := if r == Leave then OBJ_CONSOLE_DISCONN else OBJ_CONSOLE_CONNECT);
    var local := UnpackModule(c.nodeid) == target.modno && UnpackCluster(c.nodeid) == target.cluster;
    var can := CanFields(0, if local then target.node % 32 else MODULE_H8, UnpackNode(c.nodeid), 0,
                         if r == Ask then 4 else 8);
    Packet(0, can, ext, if r == Ask then 0 else PackExt(c.Id()))
  }

  /** connect_protocol, mysend and disconnect: what a client does with the answer to its request. */
  function OnReply(r: Request, try: nat, reply: Packet): Phase {
    if reply.ext.kind == TYPE_ACK then
      match r
      case Ask => if Unconnected(UnpackExt(reply.dat)) then Ready(Claim, 1) else Off
      case Claim => Session
      case Leave => Off
    else if try < MAX_RETRIES then Ready(r, try + 1)
    else Off
  }

  datatype Config = Config(nodeid: nat, target: ExtHeader, clients: seq<Client>) {
    /** The clients' console objects all differ: ids are unique on a node and addresses among nodes. */
    predicate Valid() {
      && (forall c :: 0 <= c < |clients| ==> clients[c].Valid())
      && (forall c, d :: 0 <= c < d < |clients| ==> clients[c].Id() != clients[d].Id())
    }
  }

  /** The target's owner, the clients, and for each client the request or the answer in transit. */
  datatype State = State(owner: Owner, phase: seq<Phase>, request: seq<Option<Packet>>, answer: seq<Option<Packet>>)

  /** `Other` is any packet that writes neither of the two objects, from anyone. `Duplicate` is what two disconnections
      in one session make possible, typed and forced: the target serves a second one. */
  datatype Action =
    | Launch(c: nat) | Send(c: nat) | Serve(c: nat) | Deliver(c: nat) | Quit(c: nat)
    | Other(e: Incident) | Duplicate(c: nat)

  ghost predicate Shape(g: Config, s: State) {
    g.Valid() && |s.phase| == |s.request| == |s.answer| == |g.clients|
  }

  predicate Harmless(e: Incident) {
    match e
    case Reboot => true
    case Arrive(p) =>
      p.ext.kind != TYPE_WO || (p.ext.object_ != OBJ_CONSOLE_CONNECT && p.ext.object_ != OBJ_CONSOLE_DISCONN)
  }

  /** The next state; an action that does not apply changes nothing. */
  function Next(g: Config, s: State, a: Action): State
    requires Shape(g, s)
  {
    match a
    case Other(e) => if Harmless(e) then s.(owner := Advance(g.nodeid, s.owner, e)) else s
    case Duplicate(c) =>
      if c < |s.phase| then
        s.(owner := HandlePacket(g.nodeid, s.owner, RequestPacket(g.target, g.clients[c], Leave)).owner)
      else s
    case Launch(c) => if c < |s.phase| && s.phase[c].Off? then s.(phase := s.phase[c := Ready(Ask, 1)]) else s
    case Quit(c) => if c < |s.phase| && s.phase[c].Session? then s.(phase := s.phase[c := Ready(Leave, 1)]) else s
    case Send(c) =>
      if c < |s.phase| && s.phase[c].Ready? then
        s.(phase := s.phase[c := Waiting(s.phase[c].req, s.phase[c].try)],
           request := s.request[c := Some(RequestPacket(g.target, g.clients[c], s.phase[c].req))])
      else s
    case Serve(c) =>
      if c < |s.phase| && s.request[c].Some? then
        var r := HandlePacket(g.nodeid, s.owner, s.request[c].value);
        s.(owner := r.owner, request := s.request[c := None], answer := s.answer[c := r.reply])
      else s
    case Deliver(c) =>
      if c < |s.phase| && s.phase[c].Waiting? && s.answer[c].Some? then
        s.(phase := s.phase[c := OnReply(s.phase[c].req, s.phase[c].try, s.answer[c].value)],
           answer := s.answer[c := None])
      else s
  }

  function Exec(g: Config, s: State, acts: seq<Action>): (r: State)
    requires Shape(g, s)
    ensures Shape(g, r)
    decreases |acts|
  {
    if acts == [] then s else Exec(g, Next(g, s, acts[0]), acts[1..])
  }

  function Init(g: Config, owner: Owner): State {
    State(owner, seq(|g.clients|, _ => Off), seq(|g.clients|, _ => None), seq(|g.clients|, _ => None))
  }

  /** Between the moment the target grants a client's write and the moment it serves that client's disconnection. */
  predicate Holds(phase: Phase, request: Option<Packet>, answer: Option<Packet>) {
    match phase
    case Session => true
    case Ready(r, _) => r == Leave
    case Waiting(r, _) =>
      (r == Leave && request.Some?) || (r == Claim && answer.Some? && answer.value.ext.kind == TYPE_ACK)
    case Off => false
  }

  predicate Consistent(g: Config, c: nat, phase: Phase, request: Option<Packet>, answer: Option<Packet>)
    requires c < |g.clients| && g.clients[c].Valid()
  {
    match phase
    case Waiting(r, _) =>
      && (request.Some? <==> answer.None?)
      && (request.Some? ==> request.value == RequestPacket(g.target, g.clients[c], r))
      && (answer.Some? ==>
            && answer.value.ext.kind in [TYPE_ACK, TYPE_NAK]
            && answer.value.ext == RequestPacket(g.target, g.clients[c], r).ext.(kind := answer.value.ext.kind)
            && (r == Leave ==> answer.value.ext.kind == TYPE_ACK))
    case _ => request.None? && answer.None?
  }

  /** A client that holds the console is the owner; and if none was at boot (`unowned`) a client that is the owner holds
      it. */
  ghost predicate Inv(g: Config, s: State, unowned: bool) {
    && Shape(g, s)
    && PromAgrees(s.owner)
    && (forall c :: 0 <= c < |g.clients| ==> Consistent(g, c, s.phase[c], s.request[c], s.answer[c]))
    && (forall c :: 0 <= c < |g.clients| ==> Fits(g, c, s.phase[c], s.request[c], s.answer[c], s.owner, unowned))
  }

  predicate Fits(g: Config, c: nat, phase: Phase, request: Option<Packet>, answer: Option<Packet>, o: Owner,
                 unowned: bool)
    requires c < |g.clients| && g.clients[c].Valid()
  {
    && (Holds(phase, request, answer) ==> o.rmt == g.clients[c].Id())
    && (unowned && o.rmt == g.clients[c].Id() ==> Holds(phase, request, answer))
  }

  lemma HarmlessKeepsOwner(nodeid: nat, o: Owner, e: Incident)
    requires PromAgrees(o) && Harmless(e)
    ensures Advance(nodeid, o, e) == o
  {
    AdvanceKeepsProm(nodeid, o, e);
  }

  /** Serving a client's request: the owner becomes the client, or stops being it, exactly when the client gets or gives
      up its hold; otherwise it stays. */
  lemma ServedClient(g: Config, c: nat, o: Owner, phase: Phase, request: Packet, unowned: bool)
    requires c < |g.clients| && g.clients[c].Valid() && PromAgrees(o)
    requires Consistent(g, c, phase, Some(request), None)
    requires Fits(g, c, phase, Some(request), None, o, unowned)
    ensures var r := HandlePacket(g.nodeid, o, request);
            var id := g.clients[c].Id();
            && PromAgrees(r.owner)
            && Consistent(g, c, phase, None, r.reply)
            && Fits(g, c, phase, None, r.reply, r.owner, unowned)
            && (r.owner.rmt == o.rmt || (Unconnected(o.rmt) && r.owner.rmt == id) ||
                (o.rmt == id && Unconnected(r.owner.rmt)))
  {
    AdvanceKeepsProm(g.nodeid, o, Arrive(request));
    AnswersTell(g.nodeid, o, request);
    ExtRoundTrip(g.clients[c].Id());
    IdConnected(g.clients[c]);
  }

  lemma ServeKeepsInv(g: Config, s: State, c: nat, unowned: bool)
    requires Inv(g, s, unowned) && c < |g.clients| && s.request[c].Some?
    ensures Inv(g, Next(g, s, Serve(c)), unowned)
  {
    var id := g.clients[c].Id();
    ServedClient(g, c, s.owner, s.phase[c], s.request[c].value, unowned);
    var s' := Next(g, s, Serve(c));
    forall d | 0 <= d < |g.clients|
      ensures Consistent(g, d, s'.phase[d], s'.request[d], s'.answer[d])
      ensures Fits(g, d, s'.phase[d], s'.request[d], s'.answer[d], s'.owner, unowned)
    {
      IdConnected(g.clients[d]);
      assert d != c ==> g.clients[d].Id() != id;
      assert Fits(g, d, s.phase[d], s.request[d], s.answer[d], s.owner, unowned);
    }
  }

  lemma StepKeepsInv(g: Config, s: State, a: Action, unowned: bool)
    requires Inv(g, s, unowned) && !a.Duplicate?
    ensures Inv(g, Next(g, s, a), unowned)
  {
    match a
    case Other(e) =>
      if Harmless(e) {
        HarmlessKeepsOwner(g.nodeid, s.owner, e);
      }
    case Serve(c) =>
      if c < |g.clients| && s.request[c].Some? {
        ServeKeepsInv(g, s, c, unowned);
      }
    case Launch(c) =>
    case Quit(c) =>
    case Send(c) => SendKeepsInv(g, s, c, unowned);
    case Deliver(c) => DeliverKeepsInv(g, s, c, unowned);
  }

  lemma SendKeepsInv(g: Config, s: State, c: nat, unowned: bool)
    requires Inv(g, s, unowned)
    ensures Inv(g, Next(g, s, Send(c)), unowned)
  {
  }

  lemma DeliverKeepsInv(g: Config, s: State, c: nat, unowned: bool)
    requires Inv(g, s, unowned)
    ensures Inv(g, Next(g, s, Deliver(c)), unowned)
  {
  }

  lemma {:induction false} ExecKeepsInv(g: Config, s: State, acts: seq<Action>, unowned: bool)
    requires Inv(g, s, unowned) && forall a :: a in acts ==> !a.Duplicate?
    ensures Inv(g, Exec(g, s, acts), unowned)
    decreases |acts|
  {
    if acts != [] {
      StepKeepsInv(g, s, acts[0], unowned);
      ExecKeepsInv(g, Next(g, s, acts[0]), acts[1..], unowned);
    }
  }

  /** Client c has been told it has the console and has not sent its disconnection. */
  predicate Connected(s: State, c: nat)
    requires c < |s.phase|
  {
    s.phase[c].Session? || s.phase[c] == Ready(Leave, 1)
  }

  /** At most one client is connected, and the target's owner is then that client's console object. */
  ghost predicate Exclusive(g: Config, s: State)
    requires Shape(g, s)
  {
    && (forall c :: 0 <= c < |g.clients| && Connected(s, c) ==> s.owner.rmt == g.clients[c].Id())
    && (forall c, d :: 0 <= c < d < |g.clients| ==> !(Connected(s, c) && Connected(s, d)))
  }

  /** When the owner is a client's object, that client has been granted the console and its disconnection is still to be
      served. */
  ghost predicate OwnerHolds(g: Config, s: State)
    requires Shape(g, s)
  {
    forall c :: 0 <= c < |g.clients| && s.owner.rmt == g.clients[c].Id() ==>
      Holds(s.phase[c], s.request[c], s.answer[c])
  }

  lemma InvExcludes(g: Config, s: State, unowned: bool)
    requires Inv(g, s, unowned)
    ensures Exclusive(g, s) && (unowned ==> OwnerHolds(g, s))
  {
    forall c | 0 <= c < |g.clients|
      ensures Connected(s, c) ==> s.owner.rmt == g.clients[c].Id()
    {
      assert Fits(g, c, s.phase[c], s.request[c], s.answer[c], s.owner, unowned);
    }
  }

  lemma InitInv(g: Config, o: Owner, unowned: bool)
    requires g.Valid() && PromAgrees(o) && (unowned ==> NoneOwns(g, o))
    ensures Inv(g, Init(g, o), unowned)
  {
    var s := Init(g, o);
    forall c | 0 <= c < |g.clients|
      ensures Fits(g, c, s.phase[c], s.request[c], s.answer[c], o, unowned)
    {
      assert s.phase[c] == Off;
    }
  }

  /** Whatever the target's PROM holds at boot, even a client that died owning the console: with one disconnection a
      session the console is held exclusively in every state of every run. If it was none of the clients, the owner
      also always holds it. */
  lemma MutualExclusion(g: Config, prom: string, acts: seq<Action>)
    requires g.Valid() && forall a :: a in acts ==> !a.Duplicate?
    ensures Exclusive(g, Exec(g, Init(g, Boot(prom)), acts))
    ensures NoneOwns(g, Boot(prom)) ==> OwnerHolds(g, Exec(g, Init(g, Boot(prom)), acts))
  {
    var none := NoneOwns(g, Boot(prom));
    BootAgrees(prom);
    InitInv(g, Boot(prom), none);
    ExecKeepsInv(g, Init(g, Boot(prom)), acts, none);
    InvExcludes(g, Exec(g, Init(g, Boot(prom)), acts), none);
  }

  /** The owner the target boots with is none of the clients. */
  predicate NoneOwns(g: Config, o: Owner)
    requires g.Valid()
  {
    forall c :: 0 <= c < |g.clients| ==> o.rmt != g.clients[c].Id()
  }

  // ---------------------------------------------------------------------------------------------------------------
  // What a client does with its answers.

  /** A packet to the node with this id goes to it directly when it is on the client's module, and else to the module's
      H8. Its extended header names the node and the object, and it comes from the client. */
  lemma RequestReaches(target: ExtHeader, c: Client, r: Request, id: nat)
    requires c.Valid() && IsNode(target, id)
    ensures var p := RequestPacket(target, c, r);
            && (if UnpackModule(id) == UnpackModule(c.nodeid) && UnpackCluster(id) == UnpackCluster(c.nodeid)
                then IsMyPacket(id, p) else p.can.dest == MODULE_H8)
            && p.can.src == UnpackNode(c.nodeid) && IsNode(p.ext, id)
            && p.ext.object_ == (if r == Leave then OBJ_CONSOLE_DISCONN else OBJ_CONSOLE_CONNECT)
            && p.ext.kind == (if r == Ask then TYPE_RO else TYPE_WO)
  {
  }

  /** What a client claims the console with names its own node and object, so that is where the output then goes. */
  lemma ClaimNamesClient(target: ExtHeader, c: Client)
    requires c.Valid()
    ensures var owner := UnpackExt(RequestPacket(target, c, Claim).dat);
            owner == c.Id() && IsNode(owner, c.nodeid) && owner.object_ == c.consobj
  {
    ExtRoundTrip(c.Id());
  }

  /** The client is told, by an acknowledged read, that nobody has the console. */
  predicate ToldFree(s: State, c: nat)
    requires c < |s.phase| == |s.answer|
  {
    && s.phase[c].Waiting? && s.phase[c].req == Ask
    && s.answer[c].Some? && s.answer[c].value.ext.kind == TYPE_ACK && Unconnected(UnpackExt(s.answer[c].value.dat))
  }

  /** It is told that its claim is granted. */
  predicate ToldGranted(s: State, c: nat)
    requires c < |s.phase| == |s.answer|
  {
    && s.phase[c].Waiting? && s.phase[c].req == Claim
    && s.answer[c].Some? && s.answer[c].value.ext.kind == TYPE_ACK
  }

  /** It is about to claim the console, or waiting for the answer to a claim. */
  predicate Claiming(phase: Phase) {
    (phase.Ready? || phase.Waiting?) && phase.req == Claim
  }

  lemma ExecLast(g: Config, s: State, acts: seq<Action>)
    requires Shape(g, s) && acts != []
    ensures var n := |acts| - 1; Exec(g, s, acts) == Next(g, Exec(g, s, acts[..n]), acts[n])
  {
    var n := |acts| - 1;
    assert acts == acts[..n] + [acts[n]];
    ExecSplit(g, s, acts[..n], [acts[n]]);
    ExecOne(g, Exec(g, s, acts[..n]), acts[n], []);
  }

  /** A client that is claiming the console was told that it is free, and has been claiming ever since. */
  lemma {:induction false} ClaimsWereTold(g: Config, s: State, acts: seq<Action>, c: nat) returns (k: nat)
    requires Shape(g, s) && c < |g.clients| && !Claiming(s.phase[c]) && Claiming(Exec(g, s, acts).phase[c])
    ensures k < |acts| && acts[k] == Deliver(c) && ToldFree(Exec(g, s, acts[..k]), c)
    ensures forall j :: k < j <= |acts| ==> Claiming(Exec(g, s, acts[..j]).phase[c])
    decreases |acts|
  {
    var n := |acts| - 1;
    ExecLast(g, s, acts);
    assert acts[..|acts|] == acts;
    if Claiming(Exec(g, s, acts[..n]).phase[c]) {
      k := ClaimsWereTold(g, s, acts[..n], c);
      assert acts[..n][..k] == acts[..k];
      forall j | k < j <= |acts|
        ensures Claiming(Exec(g, s, acts[..j]).phase[c])
      {
        assert j <= n ==> acts[..n][..j] == acts[..j];
      }
    } else {
      k := n;
    }
  }

  /** A client that is connected was told that its claim was granted, and has been connected ever since. */
  lemma {:induction false} SessionsWereGranted(g: Config, s: State, acts: seq<Action>, c: nat) returns (k: nat)
    requires Shape(g, s) && c < |g.clients| && !s.phase[c].Session? && Exec(g, s, acts).phase[c].Session?
    ensures k < |acts| && acts[k] == Deliver(c) && ToldGranted(Exec(g, s, acts[..k]), c)
    ensures forall j :: k < j <= |acts| ==> Exec(g, s, acts[..j]).phase[c].Session?
    decreases |acts|
  {
    var n := |acts| - 1;
    ExecLast(g, s, acts);
    assert acts[..|acts|] == acts;
    if Exec(g, s, acts[..n]).phase[c].Session? {
      k := SessionsWereGranted(g, s, acts[..n], c);
      assert acts[..n][..k] == acts[..k];
      forall j | k < j <= |acts|
        ensures Exec(g, s, acts[..j]).phase[c].Session?
      {
        assert j <= n ==> acts[..n][..j] == acts[..j];
      }
    } else {
      k := n;
    }
  }

  /** And what a client that is told so does: it claims, or is connected. */
  lemma ToldGoesOn(g: Config, s: State, c: nat)
    requires Shape(g, s) && c < |g.clients|
    ensures ToldFree(s, c) ==> Next(g, s, Deliver(c)).phase[c] == Ready(Claim, 1)
    ensures ToldGranted(s, c) ==> Next(g, s, Deliver(c)).phase[c] == Session
  {
  }

  /** The request of a client that is refused every time is sent twenty times, and then it gives up. */
  lemma RefusedTwentyTimes(g: Config, s: State, c: nat)
    requires Shape(g, s) && c < |g.clients| && s.phase[c].Waiting?
    requires s.answer[c].Some? && s.answer[c].value.ext.kind == TYPE_NAK
    ensures var r, t := s.phase[c].req, Next(g, s, Deliver(c)).phase[c];
            && (s.phase[c].try < 20 ==> t == Ready(r, s.phase[c].try + 1))
            && (s.phase[c].try >= 20 ==> t == Off)
  {
  }

  // ---------------------------------------------------------------------------------------------------------------
  // A second disconnection.

  predicate NoDuplicates(acts: seq<Action>) {
    forall a :: a in acts ==> !a.Duplicate?
  }

  /** The disconnect object does not check who writes it: a second disconnection does no harm exactly when nobody
      holds the console when it is served. Otherwise, with two clients or more, there is a way to go on after which
      the console is not held exclusively. */
  lemma DuplicateHarmlessExactlyWhen(g: Config, s: State, c: nat)
    requires Shape(g, s) && c < |g.clients| && |g.clients| >= 2
    ensures Inv(g, s, false) ==>
              ((forall acts :: NoDuplicates(acts) ==> Exclusive(g, Exec(g, Next(g, s, Duplicate(c)), acts))) <==>
               forall d :: 0 <= d < |g.clients| ==> !Holds(s.phase[d], s.request[d], s.answer[d]))
  {
    if Inv(g, s, false) {
      var t := Next(g, s, Duplicate(c));
      DuplicateServed(g, s, c);
      if d: nat :| d < |g.clients| && Holds(s.phase[d], s.request[d], s.answer[d]) {
        var acts := DuplicateHarms(g, s, c, d);
        assert NoDuplicates(acts) && !Exclusive(g, Exec(g, t, acts));
      } else {
        forall acts | NoDuplicates(acts)
          ensures Exclusive(g, Exec(g, t, acts))
        {
          ExecKeepsInv(g, t, acts, false);
          InvExcludes(g, Exec(g, t, acts), false);
        }
      }
    }
  }

  lemma DuplicateServed(g: Config, s: State, c: nat)
    requires Inv(g, s, false) && c < |g.clients|
    ensures Inv(g, Next(g, s, Duplicate(c)), false) <==>
            forall d :: 0 <= d < |g.clients| ==> !Holds(s.phase[d], s.request[d], s.answer[d])
  {
    var p := RequestPacket(g.target, g.clients[c], Leave);
    AdvanceKeepsProm(g.nodeid, s.owner, Arrive(p));
    AnswersTell(g.nodeid, s.owner, p);
    var t := Next(g, s, Duplicate(c));
    forall d | 0 <= d < |g.clients|
      ensures Holds(s.phase[d], s.request[d], s.answer[d]) ==>
                !Fits(g, d, t.phase[d], t.request[d], t.answer[d], t.owner, false)
    {
      IdConnected(g.clients[d]);
      assert Fits(g, d, s.phase[d], s.request[d], s.answer[d], s.owner, false);
    }
  }

  /** Client c asks, claims and is granted the console. */
  function Connecting(c: nat): seq<Action> {
    [Launch(c), Send(c), Serve(c), Deliver(c), Send(c), Serve(c), Deliver(c)]
  }

  function Leaving(c: nat): seq<Action> {
    [Quit(c), Send(c), Serve(c), Deliver(c)]
  }

  lemma {:induction false} ExecSplit(g: Config, s: State, a: seq<Action>, b: seq<Action>)
    requires Shape(g, s)
    ensures Exec(g, s, a + b) == Exec(g, Exec(g, s, a), b)
    decreases |a|
  {
    if a == [] {
      assert a + b == b;
    } else {
      var first, rest := a[0], a[1..];
      assert a == [first] + rest && a + b == [first] + (rest + b);
      ExecOne(g, s, first, rest);
      ExecOne(g, s, first, rest + b);
      ExecSplit(g, Next(g, s, first), rest, b);
    }
  }

  lemma ExecOne(g: Config, s: State, a: Action, rest: seq<Action>)
    requires Shape(g, s)
    ensures Exec(g, s, [a] + rest) == Exec(g, Next(g, s, a), rest)
  {
    assert ([a] + rest)[1..] == rest;
  }

  lemma ExecTwo(g: Config, s: State, a: Action, b: Action)
    requires Shape(g, s)
    ensures Exec(g, s, [a, b]) == Next(g, Next(g, s, a), b)
  {
    var s1 := Next(g, s, a);
    assert [b][1..] == [];
    assert Exec(g, s1, [b]) == Next(g, s1, b);
    assert [a, b][1..] == [b];
  }

  /** One request of client c, from sending it to taking the answer. */
  lemma Requested(g: Config, s: State, c: nat)
    requires Shape(g, s) && c < |g.clients| && s.phase[c].Ready?
    ensures var (req, try) := (s.phase[c].req, s.phase[c].try);
            var r := HandlePacket(g.nodeid, s.owner, RequestPacket(g.target, g.clients[c], req));
            Exec(g, s, [Send(c), Serve(c), Deliver(c)]) ==
              if r.reply.Some? then
                State(r.owner, s.phase[c := OnReply(req, try, r.reply.value)],
                      s.request[c := None], s.answer[c := None])
              else
                State(r.owner, s.phase[c := Waiting(req, try)], s.request[c := None], s.answer[c := None])
  {
    var s1 := Next(g, s, Send(c));
    var s2 := Next(g, s1, Serve(c));
    var acts := [Send(c), Serve(c), Deliver(c)];
    assert acts[1..] == [Serve(c), Deliver(c)];
    ExecTwo(g, s1, Serve(c), Deliver(c));
  }

  lemma Connects(g: Config, s: State, c: nat)
    requires Shape(g, s) && c < |g.clients| && s.phase[c].Off? && Unconnected(s.owner.rmt)
    ensures Exec(g, s, Connecting(c)) ==
            State(SetOwner(g.clients[c].Id()), s.phase[c := Session], s.request[c := None], s.answer[c := None])
  {
    ExtRoundTrip(s.owner.rmt);
    ExtRoundTrip(g.clients[c].Id());
    var three := [Send(c), Serve(c), Deliver(c)];
    var s1 := Next(g, s, Launch(c));
    Requested(g, s1, c);
    var s2 := Exec(g, s1, three);
    Requested(g, s2, c);
    ExecSplit(g, s1, three, three);
    assert Connecting(c)[1..] == three + three;
  }

  lemma Leaves(g: Config, s: State, c: nat)
    requires Shape(g, s) && c < |g.clients| && s.phase[c].Session? && !Unconnected(s.owner.rmt)
    ensures Exec(g, s, Leaving(c)) ==
            State(SetOwner(NoOwner(s.owner.rmt)), s.phase[c := Off], s.request[c := None], s.answer[c := None])
  {
    var s1 := Next(g, s, Quit(c));
    Requested(g, s1, c);
    assert Leaving(c)[1..] == [Send(c), Serve(c), Deliver(c)];
  }

  /** Client c has its session and leaves, d connects, the second disconnection of c is served, and c connects again. */
  function Breaking(c: nat, d: nat): seq<Action> {
    Connecting(c) + Leaving(c) + Connecting(d) + ([Duplicate(c)] + Connecting(c))
  }

  // What can still be done with one client.

  /** The answer to a request that is on its way. */
  lemma Answered(g: Config, s: State, c: nat)
    requires Shape(g, s) && c < |g.clients| && s.phase[c].Waiting?
    requires s.request[c] == Some(RequestPacket(g.target, g.clients[c], s.phase[c].req))
    ensures var (req, try) := (s.phase[c].req, s.phase[c].try);
            var r := HandlePacket(g.nodeid, s.owner, RequestPacket(g.target, g.clients[c], req));
            r.reply.Some? ==>
              Exec(g, s, [Serve(c), Deliver(c)]) ==
              State(r.owner, s.phase[c := OnReply(req, try, r.reply.value)], s.request[c := None], s.answer[c := None])
  {
    ExecTwo(g, s, Serve(c), Deliver(c));
  }

  /** Client c has come to that phase, with nothing under way for it, and nothing else has changed. */
  ghost predicate Came(s: State, c: nat, t: State, owner: Owner, phase: Phase) {
    && c < |s.phase| == |s.request| == |s.answer|
    && t == State(owner, s.phase[c := phase], s.request[c := None], s.answer[c := None])
  }

  lemma CameOn(s: State, c: nat, t: State, u: State, o: Owner, phase: Phase, o': Owner, phase': Phase)
    requires Came(s, c, t, o, phase) && Came(t, c, u, o', phase')
    ensures Came(s, c, u, o', phase')
  {
  }

  /** Whatever a client that does not hold an unconnected console is waiting for, it gets. */
  lemma Settles(g: Config, s: State, c: nat) returns (acts: seq<Action>, t: State)
    requires Shape(g, s) && c < |g.clients| && Unconnected(s.owner.rmt) && s.phase[c].Waiting?
    requires Consistent(g, c, s.phase[c], s.request[c], s.answer[c])
    requires !Holds(s.phase[c], s.request[c], s.answer[c])
    ensures NoDuplicates(acts) && t == Exec(g, s, acts) && Shape(g, t)
    ensures Came(s, c, t, t.owner, t.phase[c])
    ensures if t.phase[c].Session? then t.owner == SetOwner(g.clients[c].Id())
            else t.owner == s.owner && (t.phase[c].Off? || (t.phase[c].Ready? && t.phase[c].req != Leave))
  {
    ExtRoundTrip(s.owner.rmt);
    ExtRoundTrip(g.clients[c].Id());
    if s.request[c].Some? {
      Answered(g, s, c);
      acts := [Serve(c), Deliver(c)];
    } else {
      acts := [Deliver(c)];
      ExecOne(g, s, Deliver(c), []);
      assert [Deliver(c)] + [] == [Deliver(c)];
    }
    t := Exec(g, s, acts);
  }

  /** A client that has still to send its claim, or its question and then its claim, is granted an unconnected
      console. */
  lemma Granted(g: Config, s: State, c: nat) returns (acts: seq<Action>)
    requires Shape(g, s) && c < |g.clients| && Unconnected(s.owner.rmt) && s.phase[c].Ready? && s.phase[c].req != Leave
    ensures NoDuplicates(acts)
    ensures Came(s, c, Exec(g, s, acts), SetOwner(g.clients[c].Id()), Session)
  {
    ExtRoundTrip(s.owner.rmt);
    ExtRoundTrip(g.clients[c].Id());
    var three := [Send(c), Serve(c), Deliver(c)];
    Requested(g, s, c);
    acts := three;
    if s.phase[c].req == Ask {
      var t := Exec(g, s, three);
      Requested(g, t, c);
      ExecSplit(g, s, three, three);
      acts := three + three;
    }
  }

  /** So any client that does not hold an unconnected console can still come to hold it. */
  lemma CanConnect(g: Config, s: State, c: nat) returns (acts: seq<Action>)
    requires Shape(g, s) && c < |g.clients| && Unconnected(s.owner.rmt)
    requires Consistent(g, c, s.phase[c], s.request[c], s.answer[c])
    requires !Holds(s.phase[c], s.request[c], s.answer[c])
    ensures NoDuplicates(acts)
    ensures Came(s, c, Exec(g, s, acts), SetOwner(g.clients[c].Id()), Session)
  {
    if s.phase[c].Waiting? {
      var first, t := Settles(g, s, c);
      acts := first;
      if !t.phase[c].Session? {
        var rest := FromRest(g, t, c);
        ExecSplit(g, s, first, rest);
        CameOn(s, c, t, Exec(g, t, rest), t.owner, t.phase[c], SetOwner(g.clients[c].Id()), Session);
        acts := first + rest;
      }
    } else {
      acts := FromRest(g, s, c);
    }
  }

  lemma FromRest(g: Config, s: State, c: nat) returns (acts: seq<Action>)
    requires Shape(g, s) && c < |g.clients| && Unconnected(s.owner.rmt)
    requires s.phase[c].Off? || (s.phase[c].Ready? && s.phase[c].req != Leave)
    ensures NoDuplicates(acts)
    ensures Came(s, c, Exec(g, s, acts), SetOwner(g.clients[c].Id()), Session)
  {
    if s.phase[c].Off? {
      acts := Connecting(c);
      Connects(g, s, c);
    } else {
      acts := Granted(g, s, c);
    }
  }

  /** Somebody holds the console when a second disconnection is served. One that is connected, or is about to be told
      so, then is not the owner; and one whose own disconnection is still to be served takes the console from the
      next. */
  lemma DuplicateHarms(g: Config, s: State, c: nat, d: nat) returns (acts: seq<Action>)
    requires Inv(g, s, false) && c < |g.clients| && d < |g.clients| && |g.clients| >= 2
    requires Holds(s.phase[d], s.request[d], s.answer[d])
    ensures NoDuplicates(acts) && !Exclusive(g, Exec(g, Next(g, s, Duplicate(c)), acts))
  {
    var t := Next(g, s, Duplicate(c));
    IdConnected(g.clients[d]);
    assert Fits(g, d, s.phase[d], s.request[d], s.answer[d], s.owner, false);
    assert s.owner.rmt == g.clients[d].Id() && Unconnected(t.owner.rmt);
    if Connected(t, d) {
      acts := [];
    } else if t.phase[d].Waiting? && t.phase[d].req == Claim {
      acts := [Deliver(d)];
      ExecOne(g, t, Deliver(d), []);
      assert [Deliver(d)] + [] == [Deliver(d)];
      assert Connected(Exec(g, t, acts), d);
    } else {
      var e := if d == 0 then 1 else 0;
      assert Fits(g, e, s.phase[e], s.request[e], s.answer[e], s.owner, false);
      assert g.clients[e].Id() != g.clients[d].Id();
      acts := ConnectsAndLoses(g, t, d, e);
    }
  }

  /** Client e connects, and then the disconnection of d is served. */
  lemma ConnectsAndLoses(g: Config, s: State, d: nat, e: nat) returns (acts: seq<Action>)
    requires Shape(g, s) && d < |g.clients| && e < |g.clients| && d != e && Unconnected(s.owner.rmt)
    requires Consistent(g, e, s.phase[e], s.request[e], s.answer[e])
    requires !Holds(s.phase[e], s.request[e], s.answer[e])
    requires if s.phase[d].Waiting? then s.request[d] == Some(RequestPacket(g.target, g.clients[d], Leave))
             else s.phase[d].Ready? && s.phase[d].req == Leave
    ensures NoDuplicates(acts) && !Exclusive(g, Exec(g, s, acts))
  {
    var first := CanConnect(g, s, e);
    var last := LeavesLate(g, Exec(g, s, first), d, e);
    ExecSplit(g, s, first, last);
    acts := first + last;
  }

  /** The disconnection of d is served while e is connected. */
  lemma LeavesLate(g: Config, s: State, d: nat, e: nat) returns (acts: seq<Action>)
    requires Shape(g, s) && d < |g.clients| && e < |g.clients| && d != e
    requires s.phase[e].Session? && s.owner.rmt == g.clients[e].Id()
    requires if s.phase[d].Waiting? then s.request[d] == Some(RequestPacket(g.target, g.clients[d], Leave))
             else s.phase[d].Ready? && s.phase[d].req == Leave
    ensures NoDuplicates(acts) && !Exclusive(g, Exec(g, s, acts))
  {
    IdConnected(g.clients[e]);
    var s1 := if s.phase[d].Ready? then Next(g, s, Send(d)) else s;
    var t := Next(g, s1, Serve(d));
    assert Unconnected(t.owner.rmt) && Connected(t, e);
    ExecOne(g, s1, Serve(d), []);
    assert [Serve(d)] + [] == [Serve(d)];
    acts := [Serve(d)];
    if s.phase[d].Ready? {
      ExecTwo(g, s, Send(d), Serve(d));
      acts := [Send(d), Serve(d)];
    }
  }

  /** A whole session leaves the console unconnected and the client off. */
  lemma HadSession(g: Config, s: State, c: nat)
    requires Shape(g, s) && c < |g.clients| && s.phase[c].Off? && Unconnected(s.owner.rmt)
    ensures var t := Exec(g, s, Connecting(c) + Leaving(c)); t.phase == s.phase && Unconnected(t.owner.rmt)
  {
    IdConnected(g.clients[c]);
    Connects(g, s, c);
    Leaves(g, Exec(g, s, Connecting(c)), c);
    ExecSplit(g, s, Connecting(c), Leaving(c));
  }

  lemma DuplicateFrees(g: Config, s: State, c: nat, acts: seq<Action>)
    requires Shape(g, s) && c < |g.clients| && !Unconnected(s.owner.rmt)
    ensures var t := Next(g, s, Duplicate(c));
            t.phase == s.phase && Unconnected(t.owner.rmt) && Exec(g, s, [Duplicate(c)] + acts) == Exec(g, t, acts)
  {
    ExecOne(g, s, Duplicate(c), acts);
  }

  lemma BothConnected(g: Config, s: State, c: nat, d: nat)
    requires Shape(g, s) && c < |g.clients| && d < |g.clients| && c != d
    requires s.phase[c].Off? && s.phase[d].Off? && Unconnected(s.owner.rmt)
    ensures var t := Exec(g, s, Breaking(c, d)); Connected(t, c) && Connected(t, d)
  {
    var first, last := Connecting(c) + Leaving(c), [Duplicate(c)] + Connecting(c);
    HadSession(g, s, c);
    var s2 := Exec(g, s, first);
    IdConnected(g.clients[d]);
    Connects(g, s2, d);
    var s3 := Exec(g, s2, Connecting(d));
    DuplicateFrees(g, s3, c, Connecting(c));
    Connects(g, Next(g, s3, Duplicate(c)), c);
    ExecSplit(g, s, first, Connecting(d));
    ExecSplit(g, s, first + Connecting(d), last);
  }

  /** With a second disconnection mutual exclusion does fail: there is a run after which two clients are connected. */
  lemma SecondDisconnectionBreaksExclusion(g: Config, prom: string, c: nat, d: nat)
    requires g.Valid() && c < |g.clients| && d < |g.clients| && c != d
    ensures Unconnected(Boot(prom).rmt) ==>
              var s := Exec(g, Init(g, Boot(prom)), Breaking(c, d)); Connected(s, c) && Connected(s, d)
  {
    if Unconnected(Boot(prom).rmt) {
      BothConnected(g, Init(g, Boot(prom)), c, d);
    }
  }
}
