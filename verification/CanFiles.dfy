/** The open files of the CAN driver as values: each has a ring of packets, two flags and perhaps a console id.
*/
module CanFiles {
  import opened FiniteSets
  import opened Options
  import opened CanPacket
  import opened RingBuffer

  const MAX_FILES := 256
  const IDS := 256
  const ID_MIN := 0x100

  /** A packet drained while the file was open: whether it was for this node or seen by a flag of the file, and whether
      the file's ring had room. */
  datatype Arrival = Arrival(p: Packet, wanted: bool, room: bool)

  /** `inq` is the file's ring and `consobj` its console id or -1; `read` and `log` are history: what has been read, and
      every packet drained since the file was opened. */
  datatype File = File(
    inq: seq<Packet>, promiscuous: bool, snoopy: bool, consobj: int, read: seq<Packet>, log: seq<Arrival>)

  /** The slots of `openfd` and the flags of `consobj_reserved`. */
  datatype Files = Files(slots: seq<Option<File>>, reserved: seq<bool>) {
    predicate WellFormed() {
      && |slots| == MAX_FILES && |reserved| == IDS
      && forall f :: 0 <= f < MAX_FILES && slots[f].Some? ==>
           slots[f].value.consobj == -1 || ID_MIN <= slots[f].value.consobj < ID_MIN + IDS
    }
  }

  function Start(): Files {
    Files(seq(MAX_FILES, _ => None), seq(IDS, _ => false))
  }

  // ---------------------------------------------------------------------------------------------------------------
  // Console ids.

  /** The first id that is free, probing `left` of them circularly from `at`. */
  function Probe(reserved: seq<bool>, at: nat, left: nat): (r: Option<nat>)
    requires |reserved| == IDS && at < IDS && left <= IDS
    ensures r.Some? ==> r.value < IDS && !reserved[r.value]
    decreases left
  {
    if left == 0 then None
    else if !reserved[at] then Some(at)
    else Probe(reserved, (at + 1) % IDS, left - 1)
  }

  /** Counting up from `at` and round, id j comes before `id`. */
  predicate Before(at: nat, id: nat, j: nat) {
    if at <= id then at <= j < id else j >= at || j < id
  }

  /** The first free id in circular order is taken: all those before it are reserved. */
  lemma {:induction false} ProbeFirst(reserved: seq<bool>, at: nat, left: nat)
    requires |reserved| == IDS && at < IDS && left <= IDS && Probe(reserved, at, left).Some?
    ensures forall j: nat :: j < IDS && Before(at, Probe(reserved, at, left).value, j) ==> reserved[j]
    decreases left
  {
    if reserved[at] {
      ProbeFirst(reserved, (at + 1) % IDS, left - 1);
    }
  }

  /** Probing all of them from anywhere finds a free id if there is one. */
  lemma ProbeFinds(reserved: seq<bool>, at: nat, free: nat)
    requires |reserved| == IDS && at < IDS && free < IDS && !reserved[free]
    ensures Probe(reserved, at, |reserved|).Some?
  {
    ProbeReaches(reserved, at, |reserved|, free, if free >= at then free - at else free - at + IDS);
  }

  lemma {:induction false} ProbeReaches(reserved: seq<bool>, at: nat, left: nat, free: nat, distance: nat)
    requires |reserved| == IDS && at < IDS && left <= IDS && distance < left
    requires free == (at + distance) % IDS && !reserved[free]
    ensures Probe(reserved, at, left).Some?
    decreases left
  {
    if reserved[at] {
      ProbeReaches(reserved, (at + 1) % IDS, left - 1, free, distance - 1);
    }
  }

  predicate Holds(d: Files, f: nat, id: nat)
    requires d.WellFormed()
  {
    f < MAX_FILES && d.slots[f].Some? && d.slots[f].value.consobj == ID_MIN + id
  }

  ghost predicate Held(d: Files, id: nat)
    requires d.WellFormed()
  {
    exists f: nat :: Holds(d, f, id)
  }

  /** An id is reserved exactly when an open file holds it, and no two files hold the same. */
  ghost predicate IdsAgree(d: Files) {
    && d.WellFormed()
    && (forall id :: 0 <= id < IDS ==> (d.reserved[id] <==> Held(d, id)))
    && (forall f: nat, g: nat, id: nat :: Holds(d, f, id) && Holds(d, g, id) ==> f == g)
  }

  /** The ids held by the first n slots. */
  ghost function HeldBelow(d: Files, n: nat): set<nat>
    requires d.WellFormed() && n <= MAX_FILES
  {
    if n == 0 then {}
    else
      HeldBelow(d, n - 1) +
      if d.slots[n - 1].Some? && d.slots[n - 1].value.consobj != -1 then {d.slots[n - 1].value.consobj - ID_MIN} else {}
  }

  lemma {:induction false} HeldCount(d: Files, n: nat, idle: nat)
    requires d.WellFormed() && n <= MAX_FILES && idle < MAX_FILES
    requires d.slots[idle].Some? && d.slots[idle].value.consobj == -1
    ensures |HeldBelow(d, n)| <= if idle < n then n - 1 else n
  {
    if n > 0 {
      HeldCount(d, n - 1, idle);
    }
  }

  lemma {:induction false} HeldMember(d: Files, n: nat, f: nat, id: nat)
    requires d.WellFormed() && f < n <= MAX_FILES && Holds(d, f, id)
    ensures id in HeldBelow(d, n)
  {
    if f < n - 1 {
      HeldMember(d, n - 1, f, id);
    }
  }

  /** As long as one open file holds no id there is a free one: there are as many ids as files can be open. */
  lemma FreeIdExists(d: Files, f: nat)
    requires IdsAgree(d) && f < MAX_FILES && d.slots[f].Some? && d.slots[f].value.consobj == -1
    ensures exists id :: 0 <= id < IDS && !d.reserved[id]
  {
    HeldCount(d, |d.slots|, f);
    if forall id :: 0 <= id < IDS ==> d.reserved[id] {
      forall id: nat | id in Below(|d.reserved|)
        ensures id in HeldBelow(d, |d.slots|)
      {
        assert Held(d, id);
        var g: nat :| Holds(d, g, id);
        HeldMember(d, |d.slots|, g, id);
      }
      SubsetNotLarger(Below(|d.reserved|), HeldBelow(d, |d.slots|));
      assert false;
    }
  }

  /** can_free_consobj, also called with -1. */
  function FreeId(reserved: seq<bool>, consobj: int): (r: seq<bool>)
    ensures |r| == |reserved| && forall i :: 0 <= i < |r| ==> (r[i] <==> reserved[i] && consobj != ID_MIN + i)
  {
    if 0 <= consobj - ID_MIN < |reserved| then reserved[consobj - ID_MIN := false] else reserved
  }

  // ---------------------------------------------------------------------------------------------------------------
  // Operations.

  datatype Operation =
    | Open
    | Close(f: nat)
    | GetConsObj(f: nat, jiffies: nat)
    | SetFlags(f: nat, promiscuous: bool, snoopy: bool)
    | Deliver(p: Packet)
    | Read(f: nat, count: nat)

  /** The first empty slot of `openfd` from i on. */
  function FirstSlot(slots: seq<Option<File>>, i: nat): (r: nat)
    requires i <= |slots|
    ensures i <= r <= |slots| && (r < |slots| ==> slots[r].None?)
    ensures forall g :: i <= g < r ==> slots[g].Some?
    decreases |slots| - i
  {
    if i == |slots| || slots[i].None? then i else FirstSlot(slots, i + 1)
  }

  /** A file of a new open: an empty ring, no flags, no id. */
  function NewFile(): File {
    File([], false, false, -1, [], [])
  }

  /** deliver_pkt for one file. */
  function DeliverTo(nodeid: nat, file: File, p: Packet): File {
    var wanted := IsMyPacket(nodeid, p) || file.promiscuous || file.snoopy;
    var room := |file.inq| < MAXRING - 1;
    file.(inq := if wanted && room then file.inq + [p] else file.inq, log := file.log + [Arrival(p, wanted, room)])
  }

  function DeliverAll(nodeid: nat, slots: seq<Option<File>>, p: Packet): (r: seq<Option<File>>)
    ensures |r| == |slots|
  {
    seq(|slots|, f requires 0 <= f < |slots| =>
      if slots[f].Some? then Some(DeliverTo(nodeid, slots[f].value, p)) else None)
  }

  /** can_read, as far as packets go: up to `count` from the front of the ring. */
  function ReadFrom(file: File, count: nat): File {
    var n := if count <= |file.inq| then count else |file.inq|;
    file.(inq := file.inq[n..], read := file.read + file.inq[..n])
  }

  /** CAN_GET_CONSOBJ: the file's own id is given back before another one is looked for. */
  function TakeId(d: Files, f: nat, jiffies: nat): (r: Files)
    requires d.WellFormed() && f < MAX_FILES && d.slots[f].Some?
    ensures r.WellFormed()
  {
    var reserved := FreeId(d.reserved, d.slots[f].value.consobj);
    match Probe(reserved, jiffies % IDS, |reserved|)
    case None => Files(d.slots[f := Some(d.slots[f].value.(consobj := -1))], reserved)
    case Some(id) =>
      Files(d.slots[f := Some(d.slots[f].value.(consobj := ID_MIN + id))], reserved[id := true])
  }

  /** One operation; on a file that is not open it does nothing. */
  function Apply(nodeid: nat, d: Files, op: Operation): (r: Files)
    requires d.WellFormed()
    ensures r.WellFormed()
  {
    match op
    case Open =>
      var f := FirstSlot(d.slots, 0);
      if f == MAX_FILES then d else d.(slots := d.slots[f := Some(NewFile())])
    case Close(f) =>
      if f < MAX_FILES && d.slots[f].Some? then
        Files(d.slots[f := None], FreeId(d.reserved, d.slots[f].value.consobj))
      else d
    case GetConsObj(f, jiffies) => if f < MAX_FILES && d.slots[f].Some? then TakeId(d, f, jiffies) else d
    case SetFlags(f, promiscuous, snoopy) =>
      if f < MAX_FILES && d.slots[f].Some? then
        d.(slots := d.slots[f := Some(d.slots[f].value.(promiscuous := promiscuous, snoopy := snoopy))])
      else d
    case Deliver(p) => d.(slots := DeliverAll(nodeid, d.slots, p))
    case Read(f, count) =>
      if f < MAX_FILES && d.slots[f].Some? then
        d.(slots := d.slots[f := Some(ReadFrom(d.slots[f].value, count))])
      else d
  }

  function ApplyAll(nodeid: nat, d: Files, ops: seq<Operation>): (r: Files)
    requires d.WellFormed()
    ensures r.WellFormed()
    decreases |ops|
  {
    if ops == [] then d else ApplyAll(nodeid, Apply(nodeid, d, ops[0]), ops[1..])
  }

  /** What a packet drained does to an open file: it goes to the end of the ring exactly when it is for this node or a
      flag of the file is set, and there is room. */
  predicate Delivered(nodeid: nat, was: File, p: Packet, now: File) {
    var wanted := p.can.dest == UnpackNode(nodeid) || was.promiscuous || was.snoopy;
    && now == was.(inq := now.inq, log := now.log)
    && now.inq == was.inq + (if wanted && |was.inq| < MAXRING - 1 then [p] else [])
    && now.log == was.log + [Arrival(p, wanted, |was.inq| < MAXRING - 1)]
  }

  /** What a read does to its file: the packets read are the front of the ring, as many as asked for or all. */
  predicate WasRead(was: File, count: nat, now: File) {
    && now == was.(inq := now.inq, read := now.read)
    && was.read <= now.read && now.read[|was.read|..] + now.inq == was.inq
    && |now.read| - |was.read| == if count <= |was.inq| then count else |was.inq|
  }

  /** What an operation does to the open file f. */
  predicate FileAfter(nodeid: nat, f: nat, was: File, op: Operation, now: Option<File>) {
    match op
    case Open => now == Some(was)
    case Close(g) => now == if g == f then None else Some(was)
    case GetConsObj(g, _) =>
      && now.Some? && now.value == was.(consobj := now.value.consobj)
      && (g != f ==> now.value.consobj == was.consobj)
    case SetFlags(g, promiscuous, snoopy) =>
      now == if g == f then Some(was.(promiscuous := promiscuous, snoopy := snoopy)) else Some(was)
    case Deliver(p) => now.Some? && Delivered(nodeid, was, p, now.value)
    case Read(g, count) => if g == f then now.Some? && WasRead(was, count, now.value) else now == Some(was)
  }

  lemma ApplyExactly(nodeid: nat, d: Files, op: Operation, f: nat)
    requires d.WellFormed() && f < MAX_FILES && d.slots[f].Some?
    ensures FileAfter(nodeid, f, d.slots[f].value, op, Apply(nodeid, d, op).slots[f])
  {
  }

  /** An open takes the lowest free slot, and fails only when there is none. */
  lemma OpenExactly(nodeid: nat, d: Files, f: nat)
    requires d.WellFormed() && f <= MAX_FILES && (f < MAX_FILES ==> d.slots[f].None?)
    requires forall g :: 0 <= g < f ==> d.slots[g].Some?
    ensures Apply(nodeid, d, Open) ==
            if f == MAX_FILES then d else Files(d.slots[f := Some(File([], false, false, -1, [], []))], d.reserved)
  {
    var first := FirstSlot(d.slots, 0);
    assert !(first < f) && !(f < first);
  }

  // ---------------------------------------------------------------------------------------------------------------
  // Ids over runs.

  lemma SameHolders(d: Files, e: Files, id: nat)
    requires d.WellFormed() && e.WellFormed()
    requires forall f: nat :: Holds(e, f, id) <==> Holds(d, f, id)
    ensures Held(e, id) <==> Held(d, id)
  {
    if f: nat :| Holds(d, f, id) {
      assert Holds(e, f, id);
    }
    if f: nat :| Holds(e, f, id) {
      assert Holds(d, f, id);
    }
  }

  /** Only the ids matter for whether they agree. */
  lemma SameIds(d: Files, e: Files)
    requires IdsAgree(d) && e.WellFormed() && e.reserved == d.reserved
    requires forall f: nat, id: nat :: Holds(e, f, id) <==> Holds(d, f, id)
    ensures IdsAgree(e)
  {
    forall id: nat | id < IDS
      ensures Held(e, id) <==> Held(d, id)
    {
      SameHolders(d, e, id);
    }
  }

  /** A file gives its id back, by closing or before it gets another. */
  lemma DropKeepsIds(d: Files, f: nat, slot: Option<File>)
    requires IdsAgree(d) && f < MAX_FILES && d.slots[f].Some?
    requires slot.None? || slot.value.consobj == -1
    ensures IdsAgree(Files(d.slots[f := slot], FreeId(d.reserved, d.slots[f].value.consobj)))
  {
    var e := Files(d.slots[f := slot], FreeId(d.reserved, d.slots[f].value.consobj));
    forall g: nat, id: nat
      ensures Holds(e, g, id) <==> g != f && Holds(d, g, id)
    {
    }
    var own := d.slots[f].value.consobj;
    forall id: nat | id < IDS
      ensures e.reserved[id] <==> Held(e, id)
    {
      if own == ID_MIN + id {
        assert Holds(d, f, id);
      } else {
        SameHolders(d, e, id);
      }
    }
  }

  lemma TakeKeepsIds(d: Files, f: nat, jiffies: nat)
    requires IdsAgree(d) && f < MAX_FILES && d.slots[f].Some?
    ensures IdsAgree(TakeId(d, f, jiffies))
    ensures TakeId(d, f, jiffies).slots[f].value.consobj != -1
  {
    var none := d.slots[f].value.(consobj := -1);
    var e := Files(d.slots[f := Some(none)], FreeId(d.reserved, d.slots[f].value.consobj));
    DropKeepsIds(d, f, Some(none));
    FreeIdExists(e, f);
    var free :| 0 <= free < IDS && !e.reserved[free];
    ProbeFinds(e.reserved, jiffies % IDS, free);
    var id := Probe(e.reserved, jiffies % IDS, |e.reserved|).value;
    var r := TakeId(d, f, jiffies);
    assert r.slots == e.slots[f := Some(none.(consobj := ID_MIN + id))] && r.reserved == e.reserved[id := true];
    GrantKeepsIds(e, f, id, none.(consobj := ID_MIN + id));
  }

  lemma GrantKeepsIds(e: Files, f: nat, id: nat, file: File)
    requires IdsAgree(e) && f < MAX_FILES && e.slots[f].Some? && e.slots[f].value.consobj == -1
    requires id < IDS && !e.reserved[id] && file.consobj == ID_MIN + id
    ensures IdsAgree(Files(e.slots[f := Some(file)], e.reserved[id := true]))
  {
    var r := Files(e.slots[f := Some(file)], e.reserved[id := true]);
    forall g: nat, i: nat
      ensures Holds(r, g, i) <==> if g == f then i == id else Holds(e, g, i)
    {
    }
    assert Holds(r, f, id);
    forall i: nat | i < IDS
      ensures r.reserved[i] <==> Held(r, i)
    {
      if i != id {
        SameHolders(e, r, i);
      }
    }
    forall g: nat, h: nat, i: nat | Holds(r, g, i) && Holds(r, h, i)
      ensures g == h
    {
      assert !Held(e, id);
    }
  }

  lemma ApplyKeepsIds(nodeid: nat, d: Files, op: Operation)
    requires IdsAgree(d)
    ensures IdsAgree(Apply(nodeid, d, op))
  {
    var e := Apply(nodeid, d, op);
    match op
    case Close(f) =>
      if f < MAX_FILES && d.slots[f].Some? {
        DropKeepsIds(d, f, None);
      }
    case GetConsObj(f, jiffies) =>
      if f < MAX_FILES && d.slots[f].Some? {
        TakeKeepsIds(d, f, jiffies);
      }
    case _ => SameIds(d, e);
  }

  /** Over every run of opens, closes, requests and everything else, an id is reserved exactly when one open file holds
      it and no two hold the same; and a request for an id never fails, in whatever state and at whatever time. */
  lemma {:induction false} IdsOverRuns(nodeid: nat, d: Files, ops: seq<Operation>, f: nat, jiffies: nat)
    requires IdsAgree(d)
    ensures IdsAgree(ApplyAll(nodeid, d, ops))
    ensures var e := ApplyAll(nodeid, d, ops);
            f < MAX_FILES && e.slots[f].Some? ==>
              var got := Apply(nodeid, e, GetConsObj(f, jiffies)).slots[f].value.consobj;
              ID_MIN <= got < ID_MIN + IDS
    decreases |ops|
  {
    if ops == [] {
      if f < MAX_FILES && d.slots[f].Some? {
        TakeKeepsIds(d, f, jiffies);
      }
    } else {
      ApplyKeepsIds(nodeid, d, ops[0]);
      IdsOverRuns(nodeid, Apply(nodeid, d, ops[0]), ops[1..], f, jiffies);
    }
  }

  // ---------------------------------------------------------------------------------------------------------------
  // Packets over runs.

  /** The packets of a log that were wanted and found room. */
  function Kept(log: seq<Arrival>): seq<Packet> {
    if log == [] then []
    else
      var a := log[|log| - 1];
      Kept(log[..|log| - 1]) + (if a.wanted && a.room then [a.p] else [])
  }

  ghost predicate InOrder(d: Files) {
    && d.WellFormed()
    && forall f :: 0 <= f < MAX_FILES && d.slots[f].Some? ==> FileInOrder(d.slots[f].value)
  }

  predicate FileInOrder(file: File) {
    |file.inq| <= MAXRING - 1 && file.read + file.inq == Kept(file.log)
  }

  lemma DeliverInOrder(nodeid: nat, file: File, p: Packet)
    requires FileInOrder(file)
    ensures FileInOrder(DeliverTo(nodeid, file, p))
  {
    var r := DeliverTo(nodeid, file, p);
    assert r.log[..|file.log|] == file.log;
    assert file.read + (file.inq + [p]) == file.read + file.inq + [p];
  }

  lemma ReadInOrder(file: File, count: nat)
    requires FileInOrder(file)
    ensures FileInOrder(ReadFrom(file, count))
  {
    var n := if count <= |file.inq| then count else |file.inq|;
    assert file.read + file.inq[..n] + file.inq[n..] == file.read + file.inq;
  }

  lemma ApplyInOrder(nodeid: nat, d: Files, op: Operation)
    requires InOrder(d)
    ensures InOrder(Apply(nodeid, d, op))
  {
    match op
    case Deliver(p) =>
      forall f | 0 <= f < MAX_FILES && d.slots[f].Some?
        ensures FileInOrder(DeliverTo(nodeid, d.slots[f].value, p))
      {
        DeliverInOrder(nodeid, d.slots[f].value, p);
      }
    case Read(f, count) =>
      if f < MAX_FILES && d.slots[f].Some? {
        ReadInOrder(d.slots[f].value, count);
      }
    case _ =>
  }

  /** Over every run, what has been read from a file and what is still in its ring are together, in order, exactly the
      packets drained while it was open that were for this node or seen by its flags and found room. */
  lemma {:induction false} FanOutInOrder(nodeid: nat, d: Files, ops: seq<Operation>)
    requires InOrder(d)
    ensures InOrder(ApplyAll(nodeid, d, ops))
    decreases |ops|
  {
    if ops != [] {
      ApplyInOrder(nodeid, d, ops[0]);
      FanOutInOrder(nodeid, Apply(nodeid, d, ops[0]), ops[1..]);
    }
  }

  /** The packets a run drains while a file stays open. */
  function Drained(ops: seq<Operation>): seq<Packet> {
    if ops == [] then []
    else (if ops[0].Deliver? then [ops[0].p] else []) + Drained(ops[1..])
  }

  function PacketsOf(log: seq<Arrival>): seq<Packet> {
    seq(|log|, i requires 0 <= i < |log| => log[i].p)
  }

  /** The packets file f has logged, if it is open. */
  function Logged(d: Files, f: nat): Option<seq<Packet>>
    requires d.WellFormed() && f < MAX_FILES
  {
    if d.slots[f].Some? then Some(PacketsOf(d.slots[f].value.log)) else None
  }

  lemma LogStep(nodeid: nat, d: Files, op: Operation, f: nat)
    requires d.WellFormed() && f < MAX_FILES && Logged(d, f).Some? && op != Close(f)
    ensures Logged(Apply(nodeid, d, op), f) == Some(Logged(d, f).value + if op.Deliver? then [op.p] else [])
  {
    var e := Apply(nodeid, d, op);
    match op
    case Deliver(p) =>
      assert e.slots[f].value == DeliverTo(nodeid, d.slots[f].value, p);
      assert Logged(e, f).value == Logged(d, f).value + [p];
    case _ =>
      assert e.slots[f].Some? && e.slots[f].value.log == d.slots[f].value.log;
      assert Logged(e, f).value == Logged(d, f).value + [];
  }

  lemma Joined(a: seq<Packet>, b: seq<Packet>, c: seq<Packet>)
    ensures a + b + c == a + (b + c)
  {
  }

  /** A file that stays open logs every packet drained. */
  lemma {:induction false} LogComplete(nodeid: nat, d: Files, ops: seq<Operation>, f: nat)
    requires d.WellFormed() && f < MAX_FILES && Logged(d, f).Some?
    requires Close(f) !in ops
    ensures Logged(ApplyAll(nodeid, d, ops), f) == Some(Logged(d, f).value + Drained(ops))
    decreases |ops|
  {
    if ops == [] {
      assert Logged(d, f).value + [] == Logged(d, f).value;
    } else {
      var first := if ops[0].Deliver? then [ops[0].p] else [];
      LogStep(nodeid, d, ops[0], f);
      LogComplete(nodeid, Apply(nodeid, d, ops[0]), ops[1..], f);
      Joined(Logged(d, f).value, first, Drained(ops[1..]));
    }
  }

  lemma {:induction false} ApplySplit(nodeid: nat, d: Files, a: seq<Operation>, b: seq<Operation>)
    requires d.WellFormed()
    ensures ApplyAll(nodeid, d, a + b) == ApplyAll(nodeid, ApplyAll(nodeid, d, a), b)
    decreases |a|
  {
    if a == [] {
      assert a + b == b;
    } else {
      ApplySplit(nodeid, Apply(nodeid, d, a[0]), a[1..], b);
      assert (a + b)[1..] == a[1..] + b;
    }
  }

  /** A file's flags are those last set: they stay as long as nobody sets them. */
  lemma {:induction false} FlagsStay(nodeid: nat, d: Files, ops: seq<Operation>, f: nat)
    requires d.WellFormed() && f < MAX_FILES && d.slots[f].Some? && Close(f) !in ops
    requires forall i :: 0 <= i < |ops| && ops[i].SetFlags? ==> ops[i].f != f
    ensures var e := ApplyAll(nodeid, d, ops).slots[f];
            e.Some? && e.value.promiscuous == d.slots[f].value.promiscuous && e.value.snoopy == d.slots[f].value.snoopy
    decreases |ops|
  {
    if ops != [] {
      assert ops[0] != Close(f);
      ApplyExactly(nodeid, d, ops[0], f);
      FlagsStay(nodeid, Apply(nodeid, d, ops[0]), ops[1..], f);
    }
  }

  /** The flags at the end of a run are those of the last SetFlags in it. */
  lemma FlagsAsLastSet(nodeid: nat, d: Files, ops: seq<Operation>, f: nat, i: nat, promiscuous: bool, snoopy: bool)
    requires d.WellFormed() && f < MAX_FILES && d.slots[f].Some? && Close(f) !in ops
    requires i < |ops| && ops[i] == SetFlags(f, promiscuous, snoopy)
    requires forall j :: i < j < |ops| && ops[j].SetFlags? ==> ops[j].f != f
    ensures var e := ApplyAll(nodeid, d, ops).slots[f];
            e.Some? && e.value.promiscuous == promiscuous && e.value.snoopy == snoopy
  {
    assert ops == ops[..i] + ([ops[i]] + ops[i + 1..]);
    ApplySplit(nodeid, d, ops[..i], [ops[i]] + ops[i + 1..]);
    var e := ApplyAll(nodeid, d, ops[..i]);
    LogComplete(nodeid, d, ops[..i], f);
    assert ([ops[i]] + ops[i + 1..])[1..] == ops[i + 1..];
    FlagsStay(nodeid, Apply(nodeid, e, ops[i]), ops[i + 1..], f);
  }

  /** The entry of a packet in the log of a file that stays open tells whether the packet was for this node or seen by
      the flags the file had when it was drained, and whether the ring had room. */
  lemma LogTells(nodeid: nat, d: Files, ops: seq<Operation>, f: nat, i: nat)
    requires d.WellFormed() && f < MAX_FILES && d.slots[f].Some? && Close(f) !in ops
    requires i < |ops| && ops[i].Deliver?
    ensures var was, now := ApplyAll(nodeid, d, ops[..i]).slots[f], ApplyAll(nodeid, d, ops).slots[f];
            var k := |d.slots[f].value.log| + |Drained(ops[..i])|;
            && was.Some? && now.Some? && k < |now.value.log|
            && now.value.log[k].p == ops[i].p
            && (now.value.log[k].wanted <==>
                  ops[i].p.can.dest == UnpackNode(nodeid) || was.value.promiscuous || was.value.snoopy)
            && (now.value.log[k].room <==> |was.value.inq| < MAXRING - 1)
  {
    var rest := ops[i + 1..];
    assert ops == ops[..i] + ([ops[i]] + rest) && ([ops[i]] + rest)[1..] == rest;
    ApplySplit(nodeid, d, ops[..i], [ops[i]] + rest);
    var e := ApplyAll(nodeid, d, ops[..i]);
    LogComplete(nodeid, d, ops[..i], f);
    ApplyExactly(nodeid, e, ops[i], f);
    LogGrows(nodeid, Apply(nodeid, e, ops[i]), rest, f);
  }

  lemma {:induction false} LogGrows(nodeid: nat, d: Files, ops: seq<Operation>, f: nat)
    requires d.WellFormed() && f < MAX_FILES && d.slots[f].Some? && Close(f) !in ops
    ensures var e := ApplyAll(nodeid, d, ops).slots[f]; e.Some? && d.slots[f].value.log <= e.value.log
    decreases |ops|
  {
    if ops != [] {
      assert ops[0] != Close(f);
      ApplyExactly(nodeid, d, ops[0], f);
      LogGrows(nodeid, Apply(nodeid, d, ops[0]), ops[1..], f);
    }
  }

  lemma StartAgrees()
    ensures IdsAgree(Start()) && InOrder(Start())
  {
  }
}
