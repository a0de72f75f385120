/** The open files of the CAN driver in its own arrays and rings, each operation proved to do what the operation on
    values does.
*/
module CanDevice {
  import opened Options
  import opened CanPacket
  import opened RingBuffer
  import opened CanFiles

  /** struct file_state; `slot` is its index in `openfd`. */
  class FileState {
    const inq: Ring<Packet>
    var promiscuous: bool
    var snoopy: bool
    var consobj: int
    ghost var read: seq<Packet>
    ghost var log: seq<Arrival>
    ghost const slot: nat

    ghost predicate Valid()
      reads this, inq, inq.buf
    {
      inq.Valid()
    }

    ghost function Value(): File
      reads this, inq
    {
      File(inq.contents, promiscuous, snoopy, consobj, read, log)
    }

    constructor (ghost slot: nat)
      ensures Valid() && Value() == NewFile() && this.slot == slot && fresh(inq) && fresh(inq.buf)
    {
      this.slot := slot;
      inq := new Ring<Packet>();
      promiscuous, snoopy, consobj, read, log := false, false, -1, [], [];
    }

    /** The part of deliver_pkt that concerns one file. */
    method Deliver(nodeid: nat, p: Packet)
      requires Valid()
      modifies this`log, inq, inq.buf
      ensures Valid() && Value() == DeliverTo(nodeid, old(Value()), p)
      ensures Delivered(nodeid, old(Value()), p, Value())
    {
      log := log + [Arrival(p, IsMyPacket(nodeid, p) || promiscuous || snoopy, |inq.contents| < MAXRING - 1)];
      if p.can.dest != UnpackNode(nodeid) && !promiscuous && !snoopy {
        return;
      }
      var _ := inq.In(p);
    }

    /** What a read does to its file. */
    method Read(count: nat) returns (got: seq<Packet>)
      requires Valid()
      modifies this`read, inq
      ensures Valid() && Value() == ReadFrom(old(Value()), count)
      ensures read == old(read) + got && got + inq.contents == old(inq.contents)
      ensures |got| == if count <= |old(inq.contents)| then count else |old(inq.contents)|
    {
      got := RingToUser(count);
      read := read + got;
    }

    /** ring_to_user. */
    method RingToUser(count: nat) returns (got: seq<Packet>)
      requires Valid()
      modifies inq
      ensures Valid() && got + inq.contents == old(inq.contents)
      ensures |got| == if count <= |old(inq.contents)| then count else |old(inq.contents)|
    {
      got := [];
      ghost var all := inq.contents;
      var more := true;
      while |got| < count && more
        modifies inq
        invariant Valid() && |got| <= count && got + inq.contents == all
        invariant !more ==> inq.contents == []
        decreases count - |got|, more
      {
        ghost var left := inq.contents;
        var p := inq.Out();
        match p
        case None => more := false;
        case Some(packet) =>
          TakeFront(got, left);
          got := got + [packet];
      }
      assert !more ==> got == all;
    }
  }

  class Device {
    const nodeid: nat
    const openfd: array<FileState?>
    const reserved: array<bool>
    const inq: Ring<Packet>

    ghost function OpenFiles(): set<FileState?>
      reads openfd
    {
      set f | 0 <= f < openfd.Length :: openfd[f]
    }

    ghost function Rings(): set<Ring<Packet>>
      reads openfd
    {
      set f | 0 <= f < openfd.Length && openfd[f] != null :: openfd[f].inq
    }

    ghost function Buffers(): set<array<Packet>>
      reads openfd
    {
      set f | 0 <= f < openfd.Length && openfd[f] != null :: openfd[f].inq.buf
    }

    /** No two rings share anything. */
    ghost predicate Apart()
      reads openfd
    {
      && (forall f :: 0 <= f < openfd.Length && openfd[f] != null ==>
            openfd[f].inq != inq && openfd[f].inq.buf != inq.buf)
      && forall f, g :: 0 <= f < g < openfd.Length && openfd[f] != null && openfd[g] != null ==>
           openfd[f].inq != openfd[g].inq && openfd[f].inq.buf != openfd[g].inq.buf
    }

    ghost predicate Valid()
      reads this, openfd, OpenFiles(), Rings(), Buffers(), inq, inq.buf
    {
      && openfd.Length == MAX_FILES && reserved.Length == IDS
      && inq.Valid() && Apart()
      && forall f :: 0 <= f < MAX_FILES && openfd[f] != null ==>
           && openfd[f].Valid() && openfd[f].slot == f
           && (openfd[f].consobj == -1 || ID_MIN <= openfd[f].consobj < ID_MIN + IDS)
    }

    ghost function Slot(f: nat): Option<File>
      requires f < openfd.Length
      reads openfd, openfd[f], if openfd[f] != null then {openfd[f].inq} else {}
    {
      if openfd[f] == null then None else Some(openfd[f].Value())
    }

    ghost function Slots(): (s: seq<Option<File>>)
      reads openfd, OpenFiles(), Rings()
      ensures |s| == openfd.Length && forall f :: 0 <= f < |s| ==> s[f] == Slot(f)
    {
      seq(openfd.Length, f requires 0 <= f < openfd.Length reads openfd, OpenFiles(), Rings() =>
        assert openfd[f] in OpenFiles() && (openfd[f] != null ==> openfd[f].inq in Rings()); Slot(f))
    }

    ghost function State(): (d: Files)
      requires Valid()
      reads this, openfd, reserved, OpenFiles(), Rings(), Buffers(), inq, inq.buf
      ensures d.WellFormed()
    {
      Files(Slots(), reserved[..])
    }

    constructor (nodeid: nat)
      ensures Valid() && State() == Start() && this.nodeid == nodeid && inq.contents == []
      ensures fresh(openfd) && fresh(reserved) && fresh(inq) && fresh(inq.buf)
    {
      this.nodeid := nodeid;
      openfd := new FileState?[MAX_FILES](_ => null);
      reserved := new bool[IDS](_ => false);
      inq := new Ring<Packet>();
      new;
      assert Slots() == Start().slots && reserved[..] == Start().reserved;
    }

    /** can_alloc_consobj: an index, or None for -1. */
    method AllocConsobj(jiffies: nat) returns (r: Option<nat>)
      requires reserved.Length == IDS
      modifies reserved
      ensures r == Probe(old(reserved[..]), jiffies % IDS, reserved.Length)
      ensures reserved[..] == if r.Some? then old(reserved[..])[r.value := true] else old(reserved[..])
    {
      var try := jiffies % IDS;
      var count := 0;
      while count < IDS && reserved[try]
        modifies {}
        invariant 0 <= count <= IDS && 0 <= try < IDS
        invariant Probe(reserved[..], try, reserved.Length - count) ==
                  Probe(reserved[..], jiffies % IDS, reserved.Length)
        decreases IDS - count
      {
        try := (try + 1) % IDS;
        count := count + 1;
      }
      if count < IDS {
        reserved[try] := true;
        r := Some(try);
      } else {
        r := None;
      }
    }

    /** can_free_consobj. */
    method FreeConsobj(consobj: int)
      requires reserved.Length == IDS
      modifies reserved
      ensures reserved[..] == FreeId(old(reserved[..]), consobj)
    {
      var i := consobj - ID_MIN;
      if 0 <= i < IDS {
        reserved[i] := false;
      }
    }

    /** The loop of can_alloc_openfd: the first slot that is free. */
    method FindSlot() returns (i: nat)
      requires Valid()
      ensures i == FirstSlot(State().slots, 0) && i <= MAX_FILES && (i < MAX_FILES ==> openfd[i] == null)
      ensures forall g :: 0 <= g < i ==> openfd[g] != null
    {
      ghost var d := State();
      i := 0;
      while i < MAX_FILES && openfd[i] != null
        invariant i <= MAX_FILES
        invariant forall g :: 0 <= g < i ==> openfd[g] != null
        invariant FirstSlot(d.slots, i) == FirstSlot(d.slots, 0)
      {
        assert d.slots[i] == Slot(i);
        i := i + 1;
      }
      assert i < MAX_FILES ==> d.slots[i] == Slot(i);
    }

    /** can_open: the slot taken, or None when all are. */
    method Open() returns (r: Option<nat>)
      requires Valid()
      modifies openfd
      ensures Valid() && State() == Apply(nodeid, old(State()), CanFiles.Open)
      ensures var f := FirstSlot(old(State()).slots, 0); r == if f == MAX_FILES then None else Some(f)
      ensures var taken := if r.Some? then r.value else MAX_FILES;
              && taken <= MAX_FILES && (forall g :: 0 <= g < taken ==> old(openfd[g]) != null)
              && (r.Some? ==> old(openfd[taken]) == null && openfd[taken] != null && fresh(openfd[taken]))
      ensures forall g :: 0 <= g < MAX_FILES && r != Some(g) ==> openfd[g] == old(openfd[g])
    {
      ghost var d := State();
      var i := FindSlot();
      if i == MAX_FILES {
        return None;
      }
      assert d.slots[i] == Slot(i);
      var file := new FileState(i);
      openfd[i] := file;
      r := Some(i);
      FileAdded(i);
    }

    /** A new file in a free slot leaves the others alone. */
    twostate lemma FileAdded(i: nat)
      requires old(Valid()) && i < MAX_FILES && old(openfd[i]) == null && unchanged(reserved)
      requires forall f :: 0 <= f < MAX_FILES && f != i ==> openfd[f] == old(openfd[f])
      requires forall f :: 0 <= f < MAX_FILES && f != i && openfd[f] != null ==>
                 unchanged(openfd[f]) && unchanged(openfd[f].inq) && unchanged(openfd[f].inq.buf)
      requires unchanged(inq) && unchanged(inq.buf)
      requires var file := openfd[i];
               && file != null && fresh(file.inq) && fresh(file.inq.buf)
               && file.Valid() && file.slot == i && file.Value() == NewFile()
      ensures Valid() && State() == Files(old(State()).slots[i := Some(NewFile())], old(State()).reserved)
    {
      forall f | 0 <= f < MAX_FILES && openfd[f] != null
        ensures openfd[f].Valid() && openfd[f].slot == f
      {
      }
      forall f | 0 <= f < MAX_FILES
        ensures Slots()[f] == old(Slots())[i := Some(NewFile())][f]
      {
        assert Slots()[f] == Slot(f) && old(Slots())[f] == old(Slot(f));
      }
      assert Slots() == old(Slots())[i := Some(NewFile())];
    }

    /** can_release: the file's slot is looked up. */
    method Close(file: FileState)
      requires Valid() && file.slot < MAX_FILES && openfd[file.slot] == file
      modifies openfd, reserved
      ensures Valid() && State() == Apply(nodeid, old(State()), CanFiles.Close(file.slot))
      ensures openfd[file.slot] == null
      ensures forall g :: 0 <= g < MAX_FILES && g != file.slot ==> openfd[g] == old(openfd[g])
      ensures forall i :: 0 <= i < IDS ==> (reserved[i] <==> old(reserved[i]) && file.consobj != ID_MIN + i)
    {
      ghost var d := State();
      var i := 0;
      while i < MAX_FILES && openfd[i] != file
        modifies {}
        invariant 0 <= i <= file.slot
      {
        i := i + 1;
      }
      assert i == file.slot && d.slots[i] == Slot(i);
      if file.consobj != -1 {
        FreeConsobj(file.consobj);
      }
      openfd[i] := null;
      assert Slots() == d.slots[i := None];
    }

    /** The file's id set; everything else stays. */
    method SetConsobj(file: FileState, consobj: int)
      requires Valid() && file.slot < MAX_FILES && openfd[file.slot] == file
      requires consobj == -1 || ID_MIN <= consobj < ID_MIN + IDS
      modifies file`consobj
      ensures Valid() && old(Slots())[file.slot].Some? && file.consobj == consobj
      ensures Slots() == old(Slots())[file.slot := Some(old(Slots())[file.slot].value.(consobj := consobj))]
    {
      ghost var slots := Slots();
      assert slots[file.slot] == Slot(file.slot);
      file.consobj := consobj;
      assert Slots() == slots[file.slot := Some(slots[file.slot].value.(consobj := consobj))];
    }

    /** The file's id given back, if it has one, and a free one reserved. */
    method RenewConsobj(consobj: int, jiffies: nat) returns (id: Option<nat>)
      requires Valid() && (consobj == -1 || ID_MIN <= consobj < ID_MIN + IDS)
      modifies reserved
      ensures Valid() && Slots() == old(Slots())
      ensures var left := FreeId(old(reserved[..]), consobj);
              && id == Probe(left, jiffies % IDS, |left|)
              && reserved[..] == if id.Some? then left[id.value := true] else left
    {
      if consobj != -1 {
        FreeConsobj(consobj);
      }
      id := AllocConsobj(jiffies);
    }

    /** CAN_GET_CONSOBJ: an id, or None for EBUSY, which never happens. */
    method GetConsobj(file: FileState, jiffies: nat) returns (r: Option<nat>)
      requires Valid() && file.slot < MAX_FILES && openfd[file.slot] == file
      modifies file`consobj, reserved
      ensures Valid() && State() == TakeId(old(State()), file.slot, jiffies)
      ensures r == if file.consobj == -1 then None else Some(file.consobj)
    {
      ghost var d := State();
      assert d.slots[file.slot] == Slot(file.slot);
      var id := RenewConsobj(file.consobj, jiffies);
      SetConsobj(file, if id.Some? then ID_MIN + id.value else -1);
      r := if id.Some? then Some(ID_MIN + id.value) else None;
      TakenId(d, file.slot, jiffies, FreeId(d.reserved, d.slots[file.slot].value.consobj), id);
    }

    /** CAN_SET_PROMISCUOUS and the like, as far as the file's flags go. */
    method SetFlags(file: FileState, promiscuous: bool, snoopy: bool)
      requires Valid() && file.slot < MAX_FILES && openfd[file.slot] == file
      modifies file`promiscuous, file`snoopy
      ensures Valid() && State() == Apply(nodeid, old(State()), CanFiles.SetFlags(file.slot, promiscuous, snoopy))
      ensures file.promiscuous == promiscuous && file.snoopy == snoopy
    {
      ghost var d := State();
      assert d.slots[file.slot] == Slot(file.slot);
      file.promiscuous := promiscuous;
      file.snoopy := snoopy;
      assert Slots() ==
             d.slots[file.slot := Some(d.slots[file.slot].value.(promiscuous := promiscuous, snoopy := snoopy))];
    }

    /** What one file's methods change leaves the others and the device alone. */
    twostate lemma OthersStay(i: nat)
      requires old(Valid()) && i < MAX_FILES && openfd[i] != null && unchanged(openfd)
      requires forall f :: 0 <= f < MAX_FILES && f != i && openfd[f] != null ==>
                 unchanged(openfd[f]) && unchanged(openfd[f].inq) && unchanged(openfd[f].inq.buf)
      requires unchanged(inq) && unchanged(inq.buf) && openfd[i].Valid() && openfd[i].consobj == old(openfd[i].consobj)
      ensures Valid() && Slots() == old(Slots())[i := Some(openfd[i].Value())]
    {
      forall f | 0 <= f < MAX_FILES && openfd[f] != null
        ensures openfd[f].Valid() && openfd[f].consobj == old(openfd[f].consobj)
      {
      }
      forall f | 0 <= f < MAX_FILES
        ensures Slots()[f] == old(Slots())[i := Some(openfd[i].Value())][f]
      {
        assert Slots()[f] == Slot(f) && old(Slots())[f] == old(Slot(f));
      }
    }

    method ReadFile(file: FileState, count: nat) returns (got: seq<Packet>)
      requires Valid() && file.slot < MAX_FILES && openfd[file.slot] == file
      modifies file`read, file.inq
      ensures Valid() && file.read == old(file.read) + got && got + file.inq.contents == old(file.inq.contents)
      ensures |got| == if count <= |old(file.inq.contents)| then count else |old(file.inq.contents)|
      ensures old(Slots())[file.slot].Some?
      ensures Slots() ==
              old(Slots())[file.slot := Some(ReadFrom(old(Slots())[file.slot].value, count))]
    {
      assert Slots()[file.slot] == Slot(file.slot);
      got := file.Read(count);
      OthersStay(file.slot);
    }

    method DeliverFile(file: FileState, p: Packet)
      requires Valid() && file.slot < MAX_FILES && openfd[file.slot] == file
      modifies file`log, file.inq, file.inq.buf
      ensures Valid()
      ensures old(Slots())[file.slot].Some?
      ensures Slots() ==
              old(Slots())[file.slot := Some(DeliverTo(nodeid, old(Slots())[file.slot].value, p))]
    {
      assert Slots()[file.slot] == Slot(file.slot);
      file.Deliver(nodeid, p);
      OthersStay(file.slot);
    }

    /** can_read. */
    method Read(file: FileState, count: nat) returns (got: seq<Packet>)
      requires Valid() && file.slot < MAX_FILES && openfd[file.slot] == file
      modifies file`read, file.inq
      ensures Valid() && State() == Apply(nodeid, old(State()), CanFiles.Read(file.slot, count))
      ensures file.read == old(file.read) + got && got + file.inq.contents == old(file.inq.contents)
      ensures |got| == if count <= |old(file.inq.contents)| then count else |old(file.inq.contents)|
    {
      ghost var d := State();
      got := ReadFile(file, count);
      assert Slots() == d.slots[file.slot := Some(ReadFrom(d.slots[file.slot].value, count))];
    }

    /** deliver_pkt, as far as user space goes. */
    method DeliverPkt(p: Packet)
      requires Valid()
      modifies OpenFiles(), Rings(), Buffers()
      ensures Valid() && State() == Apply(nodeid, old(State()), CanFiles.Deliver(p))
      ensures forall f :: 0 <= f < MAX_FILES && openfd[f] != null ==>
                old(Slots())[f].Some? && Delivered(nodeid, old(Slots())[f].value, p, openfd[f].Value())
    {
      ghost var d := State();
      var i := 0;
      while i < MAX_FILES
        modifies OpenFiles(), Rings(), Buffers()
        invariant Valid() && 0 <= i <= MAX_FILES
        invariant forall f :: 0 <= f < i ==>
                    Slots()[f] == if d.slots[f].Some? then Some(DeliverTo(nodeid, d.slots[f].value, p)) else None
        invariant forall f :: i <= f < MAX_FILES ==> Slots()[f] == d.slots[f]
      {
        assert Slots()[i] == Slot(i) == d.slots[i];
        if openfd[i] != null {
          assert openfd[i] in OpenFiles() && openfd[i].inq in Rings() && openfd[i].inq.buf in Buffers();
          DeliverFile(openfd[i], p);
        }
        i := i + 1;
      }
      assert Slots() == DeliverAll(nodeid, d.slots, p);
      forall f | 0 <= f < MAX_FILES && openfd[f] != null
        ensures d.slots[f].Some? && Delivered(nodeid, d.slots[f].value, p, openfd[f].Value())
      {
        assert Slots()[f] == Slot(f);
        ApplyExactly(nodeid, d, CanFiles.Deliver(p), f);
      }
    }

    /** The oldest packet received. */
    method NextReceived() returns (p: Option<Packet>)
      requires Valid()
      modifies inq
      ensures Valid() && State() == old(State())
      ensures old(inq.contents) == Pending(p) + inq.contents && (p.None? ==> inq.contents == [])
    {
      p := inq.Out();
      FilesStay();
    }

    twostate lemma FilesStay()
      requires old(Valid()) && unchanged(openfd) && inq.Valid()
      requires forall f :: 0 <= f < MAX_FILES && openfd[f] != null ==>
                 unchanged(openfd[f]) && unchanged(openfd[f].inq) && unchanged(openfd[f].inq.buf)
      ensures Valid() && Slots() == old(Slots())
    {
      forall f | 0 <= f < MAX_FILES && openfd[f] != null
        ensures openfd[f].Valid()
      {
      }
      forall f | 0 <= f < MAX_FILES
        ensures Slots()[f] == old(Slots())[f]
      {
        assert Slots()[f] == Slot(f) && old(Slots())[f] == old(Slot(f));
      }
    }

    /** can_bh: everything received so far is delivered, in order. */
    method BottomHalf()
      requires Valid()
      modifies inq, OpenFiles(), Rings(), Buffers()
      ensures Valid() && inq.contents == []
      ensures State() == ApplyAll(nodeid, old(State()), Deliveries(old(inq.contents)))
    {
      var p := NextReceived();
      ghost var d, result := State(), ApplyAll(nodeid, State(), Deliveries(Pending(p) + inq.contents));
      while p.Some?
        modifies inq, OpenFiles(), Rings(), Buffers()
        invariant Valid() && State() == d && (p.None? ==> inq.contents == [])
        invariant ApplyAll(nodeid, d, Deliveries(Pending(p) + inq.contents)) == result
        decreases |inq.contents|, p.Some?
      {
        DeliverNext(nodeid, d, p.value, inq.contents);
        DeliverPkt(p.value);
        d := State();
        p := NextReceived();
      }
    }
  }

  function Pending(p: Option<Packet>): seq<Packet> {
    if p.Some? then [p.value] else []
  }

  lemma DeliverNext(nodeid: nat, d: Files, p: Packet, rest: seq<Packet>)
    requires d.WellFormed()
    ensures ApplyAll(nodeid, d, Deliveries([p] + rest)) ==
            ApplyAll(nodeid, Apply(nodeid, d, CanFiles.Deliver(p)), Deliveries(rest))
  {
    assert ([p] + rest)[1..] == rest;
    var ops := Deliveries([p] + rest);
    assert ops == [CanFiles.Deliver(p)] + Deliveries(rest);
    assert ops[1..] == Deliveries(rest);
  }

  lemma TakenId(d: Files, f: nat, jiffies: nat, left: seq<bool>, id: Option<nat>)
    requires d.WellFormed() && f < MAX_FILES && d.slots[f].Some?
    requires left == FreeId(d.reserved, d.slots[f].value.consobj) && id == Probe(left, jiffies % IDS, |left|)
    ensures TakeId(d, f, jiffies) ==
            Files(d.slots[f := Some(d.slots[f].value.(consobj := if id.Some? then ID_MIN + id.value else -1))],
                  if id.Some? then left[id.value := true] else left)
  {
  }

  function Deliveries(ps: seq<Packet>): (r: seq<Operation>)
    ensures |r| == |ps| && forall i :: 0 <= i < |ps| ==> r[i] == CanFiles.Deliver(ps[i])
  {
    if ps == [] then [] else [CanFiles.Deliver(ps[0])] + Deliveries(ps[1..])
  }
}
