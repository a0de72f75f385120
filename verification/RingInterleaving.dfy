/** Producers and a consumer of the same ring, none taking a lock, interleaved at single accesses to memory.
*/
module RingInterleaving {
  import opened RingBuffer

  const WORDS := 4

  /** A packet is copied word by word. */
  type Packet = p: seq<int> | |p| == WORDS witness [0, 0, 0, 0]

  /** Where a producer is in pkt_to_ring: about to read the head for the full-check; to compare the head it read with
      the tail; to read the head for the slot; to write word k of that slot; to read the head in order to advance it;
      to store the head it read, advanced. */
  datatype Producer =
    | Out
    | Check(p: Packet)
    | Compare(p: Packet, h: nat)
    | Pick(p: Packet)
    | Write(p: Packet, slot: nat, k: nat)
    | Bump(p: Packet)
    | Store(p: Packet, h: nat)
  {
    /** From the full-check to the update of the head. */
    predicate Inside() {
      !Out? && !Check?
    }
  }

  /** Where the consumer is in ring_to_pkt. */
  datatype Consumer = Away | Look | Read(got: seq<int>) | Consume(p: Packet)

  /** `accepted` and `taken` list the packets of the calls that returned 1, in the order of their last accesses;
      `refused` and `missed` count the others. */
  datatype State = State(
    mem: seq<Packet>, head: nat, tail: nat, prods: seq<Producer>, cons: Consumer,
    accepted: seq<Packet>, taken: seq<Packet>, refused: nat, missed: nat)
  {
    predicate WellFormed() {
      && |mem| == MAXRING && head < MAXRING && tail < MAXRING
      && forall i {:trigger prods[i]} :: 0 <= i < |prods| ==>
           (prods[i].Write? ==> prods[i].slot < MAXRING && prods[i].k < WORDS) &&
           (prods[i].Compare? ==> prods[i].h < MAXRING) && (prods[i].Store? ==> prods[i].h < MAXRING)
    }
  }

  datatype Action = Put(i: nat, p: Packet) | Produce(i: nat) | Get | Take

  function Init(mem: seq<Packet>, producers: nat): State {
    State(mem, 0, 0, seq(producers, _ => Out), Away, [], [], 0, 0)
  }

  function ProduceStep(s: State, i: nat): (r: State)
    requires s.WellFormed() && i < |s.prods|
    ensures r.WellFormed() && |r.prods| == |s.prods|
  {
    match s.prods[i]
    case Out => s
    case Check(p) => s.(prods := s.prods[i := Compare(p, s.head)])
    case Compare(p, h) =>
      if Next(h) == s.tail then s.(prods := s.prods[i := Out], refused := s.refused + 1)
      else s.(prods := s.prods[i := Pick(p)])
    case Pick(p) => s.(prods := s.prods[i := Write(p, s.head, 0)])
    case Write(p, slot, k) =>
      s.(mem := s.mem[slot := s.mem[slot][k := p[k]]],
         prods := s.prods[i := if k + 1 < WORDS then Write(p, slot, k + 1) else Bump(p)])
    case Bump(p) => s.(prods := s.prods[i := Store(p, s.head)])
    case Store(p, h) => s.(head := Next(h), prods := s.prods[i := Out], accepted := s.accepted + [p])
  }

  /** The next access; an action that does not apply leaves the state as it is. */
  function Step(s: State, a: Action): (r: State)
    requires s.WellFormed()
    ensures r.WellFormed()
  {
    match a
    case Put(i, p) =>
      if i < |s.prods| && s.prods[i].Out? then s.(prods := s.prods[i := Check(p)]) else s
    case Get => if s.cons.Away? then s.(cons := Look) else s
    case Produce(i) => if i < |s.prods| then ProduceStep(s, i) else s
    case Take =>
      match s.cons
      case Away => s
      case Look => if s.head == s.tail then s.(cons := Away, missed := s.missed + 1) else s.(cons := Read([]))
      case Read(got) =>
        if |got| >= WORDS then s
        else
          var more := got + [s.mem[s.tail][|got|]];
          s.(cons := if |more| == WORDS then Consume(more) else Read(more))
      case Consume(p) => s.(tail := Next(s.tail), cons := Away, taken := s.taken + [p])
  }

  function Exec(s: State, acts: seq<Action>): (r: State)
    requires s.WellFormed()
    ensures r.WellFormed()
    decreases |acts|
  {
    if acts == [] then s else Exec(Step(s, acts[0]), acts[1..])
  }

  // ---------------------------------------------------------------------------------------------------------------
  // One producer inside at a time.

  /** No two producers are between their full-checks and their updates of the head. */
  predicate Alone(s: State) {
    forall i, j :: 0 <= i < j < |s.prods| ==> !(s.prods[i].Inside() && s.prods[j].Inside())
  }

  predicate AloneThroughout(s: State, acts: seq<Action>)
    requires s.WellFormed()
    decreases |acts|
  {
    Alone(s) && (acts != [] ==> AloneThroughout(Step(s, acts[0]), acts[1..]))
  }

  predicate ProducerOk(s: State, prod: Producer)
    requires s.WellFormed()
  {
    var room := |s.accepted| < |s.taken| + MAXRING - 1;
    match prod
    case Out => true
    case Check(_) => true
    case Compare(_, h) => h == s.head
    case Pick(_) => room
    case Write(p, slot, k) => room && slot == s.head && k < WORDS && s.mem[slot][..k] == p[..k]
    case Bump(p) => room && s.mem[s.head] == p
    case Store(p, h) => room && h == s.head && s.mem[h] == p
  }

  ghost predicate Inv(s: State) {
    var n, m := |s.accepted|, |s.taken|;
    && s.WellFormed() && Alone(s)
    && m <= n <= m + MAXRING - 1
    && s.head == n % MAXRING && s.tail == m % MAXRING
    && s.taken == s.accepted[..m]
    && (forall i :: m <= i < n ==> s.mem[i % MAXRING] == s.accepted[i])
    && (forall i :: 0 <= i < |s.prods| ==> ProducerOk(s, s.prods[i]))
    && (s.cons.Read? || s.cons.Consume? ==> m < n)
    && (s.cons.Read? ==> |s.cons.got| < WORDS && s.cons.got == s.accepted[m][..|s.cons.got|])
    && (s.cons.Consume? ==> s.cons.p == s.accepted[m])
  }

  lemma SlotsDistinct(i: nat, j: nat)
    requires i < j < i + MAXRING
    ensures i % MAXRING != j % MAXRING
  {
  }

  lemma PositionNext(n: nat)
    ensures Next(n % MAXRING) == (n + 1) % MAXRING
  {
  }

  lemma PositionAfter(m: nat, k: nat)
    requires k < MAXRING
    ensures var t := m % MAXRING; (m + k) % MAXRING == if t + k < MAXRING then t + k else t + k - MAXRING
  {
  }

  /** The ring is full, or empty, as the indices say exactly when the counts do. */
  lemma FullAndEmpty(s: State)
    requires Inv(s)
    ensures Next(s.head) == s.tail <==> |s.accepted| == |s.taken| + MAXRING - 1
    ensures s.head == s.tail <==> |s.accepted| == |s.taken|
  {
    PositionNext(|s.accepted|);
  }

  lemma ProducersStayOk(s: State, i: nat)
    requires Inv(s) && i < |s.prods| && Alone(ProduceStep(s, i))
    ensures var s' := ProduceStep(s, i); forall j :: 0 <= j < |s'.prods| ==> ProducerOk(s', s'.prods[j])
  {
    FullAndEmpty(s);
    var s' := ProduceStep(s, i);
    forall j | 0 <= j < |s'.prods|
      ensures ProducerOk(s', s'.prods[j])
    {
      assert j != i ==> s'.prods[j] == s.prods[j];
      assert j != i && s.prods[i].Inside() ==> !s.prods[j].Inside();
    }
  }

  /** An access of a producer that leaves no two inside keeps the invariant. */
  lemma ProduceKeepsInv(s: State, i: nat)
    requires Inv(s) && i < |s.prods| && Alone(ProduceStep(s, i))
    ensures Inv(ProduceStep(s, i))
  {
    FullAndEmpty(s);
    PositionNext(|s.accepted|);
    var s' := ProduceStep(s, i);
    forall k | |s'.taken| <= k < |s'.accepted|
      ensures s'.mem[k % MAXRING] == s'.accepted[k]
    {
      if k < |s.accepted| {
        SlotsDistinct(k, |s.accepted|);
      }
    }
    ProducersStayOk(s, i);
  }

  lemma TakeKeepsInv(s: State)
    requires Inv(s)
    ensures Inv(Step(s, Take))
  {
    FullAndEmpty(s);
    PositionNext(|s.taken|);
  }

  lemma {:induction false} ExecKeepsInv(s: State, acts: seq<Action>)
    requires Inv(s) && AloneThroughout(s, acts)
    ensures Inv(Exec(s, acts))
    decreases |acts|
  {
    if acts != [] {
      if acts[0].Produce? {
        if acts[0].i < |s.prods| {
          ProduceKeepsInv(s, acts[0].i);
        }
      } else if acts[0].Take? {
        TakeKeepsInv(s);
      }
      ExecKeepsInv(Step(s, acts[0]), acts[1..]);
    }
  }

  /** What has been taken out is a prefix of what has been accepted, whole packets in order; the ring holds exactly the
      rest; and a consumer finds nothing only when the ring is empty at the moment it looks. */
  predicate FirstInFirstOut(s: State)
    requires s.WellFormed()
  {
    && s.accepted == s.taken + Queued(s.mem, s.head, s.tail)
    && (Step(s, Take).missed > s.missed ==> s.accepted == s.taken)
  }

  /** With any number of producers and one consumer, in every interleaving that never has two producers between their
      full-checks and their updates of the head; a producer is then refused only when the ring is full at that moment.
   */
  lemma FifoWhenAlone(mem: seq<Packet>, producers: nat, acts: seq<Action>, i: nat)
    requires |mem| == MAXRING && AloneThroughout(Init(mem, producers), acts)
    ensures var s := Exec(Init(mem, producers), acts);
            && FirstInFirstOut(s)
            && (i < producers && Step(s, Produce(i)).refused > s.refused ==>
                  |Queued(s.mem, s.head, s.tail)| == MAXRING - 1)
  {
    var s0 := Init(mem, producers);
    ExecKeepsInv(s0, acts);
    SameProducers(s0, acts);
    var s := Exec(s0, acts);
    FullAndEmpty(s);
    QueuedIsRest(s);
    assert s.accepted == s.accepted[..|s.taken|] + s.accepted[|s.taken|..];
    if i < producers {
      assert ProducerOk(s, s.prods[i]);
    }
  }

  lemma {:induction false} SameProducers(s: State, acts: seq<Action>)
    requires s.WellFormed()
    ensures |Exec(s, acts).prods| == |s.prods|
    decreases |acts|
  {
    if acts != [] {
      SameProducers(Step(s, acts[0]), acts[1..]);
    }
  }

  /** One producer and one consumer are safe relative to each other in every interleaving. */
  lemma FifoWithOneProducer(mem: seq<Packet>, acts: seq<Action>)
    requires |mem| == MAXRING
    ensures var s := Exec(Init(mem, 1), acts);
            && FirstInFirstOut(s)
            && (Step(s, Produce(0)).refused > s.refused ==> |Queued(s.mem, s.head, s.tail)| == MAXRING - 1)
  {
    OneIsAlone(Init(mem, 1), acts);
    FifoWhenAlone(mem, 1, acts, 0);
  }

  lemma {:induction false} OneIsAlone(s: State, acts: seq<Action>)
    requires s.WellFormed() && |s.prods| == 1
    ensures AloneThroughout(s, acts)
    decreases |acts|
  {
    if acts != [] {
      OneIsAlone(Step(s, acts[0]), acts[1..]);
    }
  }

  lemma QueuedIsRest(s: State)
    requires Inv(s)
    ensures Queued(s.mem, s.head, s.tail) == s.accepted[|s.taken|..]
  {
    FullAndEmpty(s);
    var n, m := |s.accepted|, |s.taken|;
    var q := Queued(s.mem, s.head, s.tail);
    assert |q| == n - m by {
      SizeAndRoom(s.mem, s.head, s.tail);
      PositionAfter(m, n - m);
    }
    forall k | 0 <= k < n - m
      ensures q[k] == s.accepted[m + k]
    {
      QueuedAt(s.mem, s.head, s.tail, k);
      PositionAfter(m, k);
    }
  }

  // ---------------------------------------------------------------------------------------------------------------
  // What is accepted is what the producers were called with.

  /** A call of producer i begins. */
  predicate Begins(s: State, a: Action, i: nat) {
    i < |s.prods| && s.prods[i].Out? && a.Put? && a.i == i
  }

  /** The packets producer i is called with, in order. */
  function CallsOf(s: State, acts: seq<Action>, i: nat): seq<Packet>
    requires s.WellFormed()
    decreases |acts|
  {
    if acts == [] then []
    else (if Begins(s, acts[0], i) then [acts[0].p] else []) + CallsOf(Step(s, acts[0]), acts[1..], i)
  }

  /** In every interleaving a producer that is in a call carries the packet it was last called with. */
  lemma {:induction false} CarriesItsOwn(s: State, acts: seq<Action>, i: nat)
    requires s.WellFormed() && i < |s.prods|
    ensures var t, calls := Exec(s, acts), CallsOf(s, acts, i);
            && |t.prods| == |s.prods|
            && (!t.prods[i].Out? ==>
                  if calls == [] then !s.prods[i].Out? && t.prods[i].p == s.prods[i].p
                  else t.prods[i].p == calls[|calls| - 1])
    decreases |acts|
  {
    if acts != [] {
      CarriesItsOwn(Step(s, acts[0]), acts[1..], i);
    }
  }

  /** The packets all producers are called with. */
  function Offered(s: State, acts: seq<Action>): multiset<Packet>
    requires s.WellFormed()
    decreases |acts|
  {
    if acts == [] then multiset{} else New(s, acts[0]) + Offered(Step(s, acts[0]), acts[1..])
  }

  function New(s: State, a: Action): multiset<Packet> {
    if a.Put? && Begins(s, a, a.i) then multiset{a.p} else multiset{}
  }

  function Carried(prod: Producer): multiset<Packet> {
    if prod.Out? then multiset{} else multiset{prod.p}
  }

  /** The packets of the calls under way. */
  function UnderWay(prods: seq<Producer>): multiset<Packet> {
    if prods == [] then multiset{} else UnderWay(prods[..|prods| - 1]) + Carried(prods[|prods| - 1])
  }

  /** All of them but producer i's. */
  lemma {:induction false} UnderWayBut(prods: seq<Producer>, i: nat, x: Producer) returns (others: multiset<Packet>)
    requires i < |prods|
    ensures UnderWay(prods) == others + Carried(prods[i])
    ensures UnderWay(prods[i := x]) == others + Carried(x)
  {
    var n := |prods| - 1;
    if i < n {
      var some := UnderWayBut(prods[..n], i, x);
      assert prods[i := x][..n] == prods[..n][i := x];
      others := some + Carried(prods[n]);
      Exchanged(some, Carried(prods[i]), Carried(prods[n]));
      Exchanged(some, Carried(x), Carried(prods[n]));
    } else {
      assert prods[i := x][..n] == prods[..n];
      others := UnderWay(prods[..n]);
    }
  }

  lemma Exchanged(a: multiset<Packet>, b: multiset<Packet>, c: multiset<Packet>)
    ensures a + b + c == a + c + b
  {
  }

  lemma {:induction false} NoneUnderWay(producers: nat)
    ensures UnderWay(seq(producers, _ => Out)) == multiset{}
  {
    if producers > 0 {
      NoneUnderWay(producers - 1);
      assert seq(producers, _ => Out)[..producers - 1] == seq(producers - 1, _ => Out);
    }
  }

  /** `more` has been offered between s and t: of that and what was under way, each is accepted, refused or under way.
      */
  ghost predicate Accounts(s: State, t: State, more: multiset<Packet>) {
    && multiset(t.accepted) + UnderWay(t.prods) <= multiset(s.accepted) + UnderWay(s.prods) + more
    && |t.accepted| + t.refused + |UnderWay(t.prods)| == |s.accepted| + s.refused + |UnderWay(s.prods)| + |more|
  }

  /** A call with p has been accepted, or refused. */
  predicate Ended(s: State, t: State, p: Packet) {
    if t.refused == s.refused then t.accepted == s.accepted + [p]
    else t.refused == s.refused + 1 && t.accepted == s.accepted
  }

  lemma CallEnds(s: State, t: State, p: Packet, others: multiset<Packet>)
    requires UnderWay(s.prods) == others + multiset{p} && UnderWay(t.prods) == others
    requires Ended(s, t, p)
    ensures Accounts(s, t, multiset{})
  {
    assert multiset(s.accepted + [p]) == multiset(s.accepted) + multiset{p};
    var before := multiset(s.accepted) + (others + multiset{p});
    assert multiset(t.accepted) + others <= before;
    assert before + multiset{} == before;
  }

  lemma NothingEnds(s: State, t: State)
    requires UnderWay(t.prods) == UnderWay(s.prods) && t.accepted == s.accepted && t.refused == s.refused
    ensures Accounts(s, t, multiset{})
  {
  }

  lemma ProduceAccounts(s: State, i: nat)
    requires s.WellFormed() && i < |s.prods|
    ensures Accounts(s, ProduceStep(s, i), multiset{})
  {
    var t := ProduceStep(s, i);
    if s.prods[i].Out? {
      NothingEnds(s, t);
    } else {
      var p := s.prods[i].p;
      var others := UnderWayBut(s.prods, i, t.prods[i]);
      OneStepOn(s, i);
      if t.prods[i].Out? {
        assert others + multiset{} == others;
        CallEnds(s, t, p, others);
      } else {
        NothingEnds(s, t);
      }
    }
  }

  lemma OneStepOn(s: State, i: nat)
    requires s.WellFormed() && i < |s.prods| && !s.prods[i].Out?
    ensures var t := ProduceStep(s, i);
            && t.prods == s.prods[i := t.prods[i]]
            && if t.prods[i].Out?
               then Ended(s, t, s.prods[i].p)
               else t.prods[i].p == s.prods[i].p && t.accepted == s.accepted && t.refused == s.refused
  {
  }

  lemma PutAccounts(s: State, i: nat, p: Packet)
    requires s.WellFormed() && Begins(s, Put(i, p), i)
    ensures Accounts(s, Step(s, Put(i, p)), multiset{p})
  {
    var others := UnderWayBut(s.prods, i, Check(p));
    assert UnderWay(s.prods) == others;
  }

  lemma AccountsOn(s: State, t: State, u: State, a: multiset<Packet>, b: multiset<Packet>)
    requires Accounts(s, t, a) && Accounts(t, u, b)
    ensures Accounts(s, u, a + b)
  {
    var x, y := multiset(t.accepted) + UnderWay(t.prods), multiset(s.accepted) + UnderWay(s.prods) + a;
    assert x + b <= y + b;
    assert y + b == multiset(s.accepted) + UnderWay(s.prods) + (a + b);
  }

  lemma {:induction false} ExecAccounts(s: State, acts: seq<Action>)
    requires s.WellFormed()
    ensures Accounts(s, Exec(s, acts), Offered(s, acts))
    decreases |acts|
  {
    if acts != [] {
      var s1 := Step(s, acts[0]);
      StepAccounts(s, acts[0]);
      ExecAccounts(s1, acts[1..]);
      AccountsOn(s, s1, Exec(s1, acts[1..]), New(s, acts[0]), Offered(s1, acts[1..]));
    }
  }

  lemma OtherStep(s: State, a: Action)
    requires s.WellFormed()
    requires if a.Put? then !Begins(s, a, a.i) else a.Produce? ==> a.i >= |s.prods|
    ensures var t := Step(s, a); t.prods == s.prods && t.accepted == s.accepted && t.refused == s.refused
  {
  }

  lemma StepAccounts(s: State, a: Action)
    requires s.WellFormed()
    ensures Accounts(s, Step(s, a), New(s, a))
  {
    if a.Put? && Begins(s, a, a.i) {
      PutAccounts(s, a.i, a.p);
      assert New(s, a) == multiset{a.p} && Put(a.i, a.p) == a;
    } else {
      assert New(s, a) == multiset{};
      if a.Produce? && a.i < |s.prods| {
        ProduceAccounts(s, a.i);
        assert Step(s, a) == ProduceStep(s, a.i);
      } else {
        OtherStep(s, a);
        NothingEnds(s, Step(s, a));
      }
    }
  }

  /** In every interleaving of any number of producers each call's packet is accepted once or refused or still under
      way, and nothing else is accepted. */
  lemma CallsAccountedFor(mem: seq<Packet>, producers: nat, acts: seq<Action>)
    requires |mem| == MAXRING
    ensures var s, offered := Exec(Init(mem, producers), acts), Offered(Init(mem, producers), acts);
            && multiset(s.accepted) + UnderWay(s.prods) <= offered
            && |offered| == |s.accepted| + s.refused + |UnderWay(s.prods)|
  {
    NoneUnderWay(producers);
    ExecAccounts(Init(mem, producers), acts);
  }

  // ---------------------------------------------------------------------------------------------------------------
  // A producer interrupted by another.

  function Todo(prod: Producer): nat {
    match prod
    case Out => 0
    case Store(_, _) => 1
    case Bump(_) => 2
    case Write(_, _, k) => 3 + if k < WORDS then WORDS - k else 0
    case Pick(_) => 4 + WORDS
    case Compare(_, _) => 5 + WORDS
    case Check(_) => 6 + WORDS
  }

  /** Producer i goes on to the end of its call without interruption. */
  function Finish(s: State, i: nat): (r: State)
    requires s.WellFormed() && i < |s.prods|
    ensures r.WellFormed() && |r.prods| == |s.prods|
    decreases Todo(s.prods[i])
  {
    if s.prods[i].Out? then s else Finish(ProduceStep(s, i), i)
  }

  /** Past its full-check it puts its packet in the slot it has picked, and moves the head on from where it reads it. */
  function Done(s: State, i: nat): State
    requires s.WellFormed() && i < |s.prods|
  {
    var t := s.(prods := s.prods[i := Out]);
    match s.prods[i]
    case Pick(p) => t.(mem := s.mem[s.head := p], head := Next(s.head), accepted := s.accepted + [p])
    case Write(p, slot, k) =>
      t.(mem := s.mem[slot := s.mem[slot][..k] + p[k..]], head := Next(s.head), accepted := s.accepted + [p])
    case Bump(p) => t.(head := Next(s.head), accepted := s.accepted + [p])
    case Store(p, h) => t.(head := Next(h), accepted := s.accepted + [p])
    case _ => t
  }

  lemma WordWritten(m: Packet, p: Packet, k: nat)
    requires k < WORDS
    ensures m[k := p[k]][..k + 1] + p[k + 1..] == m[..k] + p[k..]
    ensures k + 1 == WORDS ==> m[k := p[k]] == m[..k] + p[k..]
  {
  }

  lemma {:induction false} FinishesSo(s: State, i: nat)
    requires s.WellFormed() && i < |s.prods|
    requires s.prods[i].Pick? || s.prods[i].Write? || s.prods[i].Bump? || s.prods[i].Store?
    ensures Finish(s, i) == Done(s, i)
    decreases Todo(s.prods[i])
  {
    var s' := ProduceStep(s, i);
    assert s'.prods[i := Out] == s.prods[i := Out];
    match s.prods[i]
    case Store(_, _) =>
      assert Finish(s', i) == s';
    case Write(p, slot, k) =>
      FinishesSo(s', i);
      WordWritten(s.mem[slot], p, k);
      assert s.mem[slot := s.mem[slot][k := p[k]]][slot := s.mem[slot][..k] + p[k..]]
          == s.mem[slot := s.mem[slot][..k] + p[k..]];
    case Pick(p) =>
      FinishesSo(s', i);
      assert s.mem[s.head][..0] + p[0..] == p;
    case Bump(_) =>
      FinishesSo(s', i);
  }

  lemma Appended(mem: seq<Packet>, head: nat, tail: nat, x: Packet)
    requires |mem| == MAXRING && head < MAXRING && tail < MAXRING && Next(head) != tail
    ensures Queued(mem[head := x], Next(head), tail) == Queued(mem, head, tail) + [x]
  {
  }

  /** The slot holds a packet that is queued. */
  predicate InQueue(slot: nat, head: nat, tail: nat) {
    if tail <= head then tail <= slot < head else slot < head || tail <= slot
  }

  lemma QueueUpdated(mem: seq<Packet>, head: nat, tail: nat, slot: nat, x: Packet)
    requires |mem| == MAXRING && head < MAXRING && tail < MAXRING && slot < MAXRING
    ensures Queued(mem[slot := x], head, tail) == Queued(mem, head, tail) <==>
            (InQueue(slot, head, tail) ==> mem[slot] == x)
  {
    var before, after := Queued(mem, head, tail), Queued(mem[slot := x], head, tail);
    if InQueue(slot, head, tail) {
      var k := if tail <= slot then slot - tail else slot + MAXRING - tail;
      QueuedAt(mem, head, tail, k);
      QueuedAt(mem[slot := x], head, tail, k);
      assert before[k] == mem[slot] && after[k] == x;
      assert mem[slot] == x ==> mem[slot := x] == mem;
    } else {
      assert after == before;
    }
  }

  /** A producer past its full-check goes on to the end and does what a call made as a whole at this moment would: it is
      refused if the ring is full, and else puts its packet behind those queued. */
  predicate GoesRight(s: State, i: nat)
    requires s.WellFormed() && i < |s.prods| && s.prods[i].Inside()
  {
    var t := Finish(s, i);
    var before, after := Queued(s.mem, s.head, s.tail), Queued(t.mem, t.head, t.tail);
    if Next(s.head) == s.tail then t.accepted == s.accepted && after == before
    else t.accepted == s.accepted + [s.prods[i].p] && after == before + [s.prods[i].p]
  }

  /** What is true of the ring when it goes right. Before the comparison: the head read is as good as the present one.
      Afterwards there must be room still; the head must not have moved once a slot was picked, or the next slot happen
      to hold the packet already; and the words written must still be there. */
  predicate Unharmed(s: State, i: nat)
    requires s.WellFormed() && i < |s.prods|
  {
    var full := Next(s.head) == s.tail;
    match s.prods[i]
    case Compare(_, h) => (Next(h) == s.tail) == full
    case Pick(_) => !full
    case Write(p, slot, k) =>
      && !full
      && if slot == s.head then s.mem[slot][..k] == p[..k]
         else s.mem[s.head] == p && (InQueue(slot, s.head, s.tail) ==> s.mem[slot][k..] == p[k..])
    case Bump(p) => !full && s.mem[s.head] == p
    case Store(p, h) => !full && h == s.head && s.mem[s.head] == p
    case _ => true
  }

  /** The exact condition, in any state of the ring whatsoever. */
  lemma RightExactly(s: State, i: nat)
    requires s.WellFormed() && i < |s.prods| && s.prods[i].Inside()
    ensures GoesRight(s, i) <==> Unharmed(s, i)
  {
    match s.prods[i]
    case Compare(p, h) =>
      var t := ProduceStep(s, i);
      if Next(h) == s.tail {
        assert Finish(s, i) == t;
      } else {
        assert t.prods[i := Out] == s.prods[i := Out];
        FinishesSo(t, i);
        PutRight(s, p);
      }
    case Pick(p) =>
      FinishesSo(s, i);
      PutRight(s, p);
    case Write(p, slot, k) =>
      FinishesSo(s, i);
      if Next(s.head) != s.tail {
        WriteRight(s, p, slot, k);
      }
    case Bump(p) =>
      FinishesSo(s, i);
      PublishRight(s.mem, s.head, s.tail);
      SameEnds(Queued(s.mem, s.head, s.tail), Queued(s.mem, s.head, s.tail), s.mem[s.head], p);
    case Store(p, h) =>
      FinishesSo(s, i);
      if Next(s.head) != s.tail {
        StoreRight(s, h);
        SameEnds(Queued(s.mem, s.head, s.tail), Queued(s.mem, s.head, s.tail), s.mem[s.head], p);
      }
  }

  lemma PutRight(s: State, p: Packet)
    requires s.WellFormed()
    ensures Next(s.head) != s.tail ==>
              Queued(s.mem[s.head := p], Next(s.head), s.tail) == Queued(s.mem, s.head, s.tail) + [p]
  {
    if Next(s.head) != s.tail {
      Appended(s.mem, s.head, s.tail, p);
    }
  }

  /** Moving the head on by one queues whatever the slot at the head holds. */
  lemma PublishRight(mem: seq<Packet>, head: nat, tail: nat)
    requires |mem| == MAXRING && head < MAXRING && tail < MAXRING
    ensures Next(head) != tail ==> Queued(mem, Next(head), tail) == Queued(mem, head, tail) + [mem[head]]
  {
    if Next(head) != tail {
      Appended(mem, head, tail, mem[head]);
      assert mem[head := mem[head]] == mem;
    }
  }

  lemma WriteRight(s: State, p: Packet, slot: nat, k: nat)
    requires s.WellFormed() && slot < MAXRING && k < WORDS && Next(s.head) != s.tail
    ensures var mem := s.mem[slot := s.mem[slot][..k] + p[k..]];
            Queued(mem, Next(s.head), s.tail) == Queued(s.mem, s.head, s.tail) + [p] <==>
            if slot == s.head then s.mem[slot][..k] == p[..k]
            else s.mem[s.head] == p && (InQueue(slot, s.head, s.tail) ==> s.mem[slot][k..] == p[k..])
  {
    var x := s.mem[slot][..k] + p[k..];
    var mem := s.mem[slot := x];
    PublishRight(mem, s.head, s.tail);
    QueueUpdated(s.mem, s.head, s.tail, slot, x);
    var before, after := Queued(s.mem, s.head, s.tail), Queued(mem, s.head, s.tail);
    assert |before| == |after|;
    assert after + [mem[s.head]] == before + [p] <==> after == before && mem[s.head] == p by {
      SameEnds(after, before, mem[s.head], p);
    }
    SplitWords(s.mem[slot], p, k);
  }

  lemma SameEnds(a: seq<Packet>, b: seq<Packet>, x: Packet, y: Packet)
    requires |a| == |b|
    ensures a + [x] == b + [y] <==> a == b && x == y
  {
    if a + [x] == b + [y] {
      assert a == (a + [x])[..|a|] && b == (b + [y])[..|b|];
      assert (a + [x])[|a|] == x && (b + [y])[|b|] == y;
    }
  }

  lemma SplitWords(m: Packet, p: Packet, k: nat)
    requires k < WORDS
    ensures m[..k] + p[k..] == p <==> m[..k] == p[..k]
    ensures m[..k] + p[k..] == m <==> m[k..] == p[k..]
  {
    var x := m[..k] + p[k..];
    assert p == p[..k] + p[k..] && m == m[..k] + m[k..];
    assert x[..k] == m[..k] && x[k..] == p[k..];
  }

  lemma StoreRight(s: State, h: nat)
    requires s.WellFormed() && h < MAXRING && Next(s.head) != s.tail
    ensures |Queued(s.mem, Next(h), s.tail)| == |Queued(s.mem, s.head, s.tail)| + 1 <==> h == s.head
    ensures Queued(s.mem, Next(s.head), s.tail) == Queued(s.mem, s.head, s.tail) + [s.mem[s.head]]
  {
    PublishRight(s.mem, s.head, s.tail);
    SizeAndRoom(s.mem, Next(h), s.tail);
    SizeAndRoom(s.mem, s.head, s.tail);
  }

  // ---------------------------------------------------------------------------------------------------------------
  // Whole calls in between.

  /** A call of another producer, or of the consumer, from beginning to end. */
  datatype Whole = PutWhole(j: nat, q: Packet) | TakeWhole

  function TakeTodo(cons: Consumer): nat {
    match cons
    case Away => 0
    case Consume(_) => 1
    case Read(got) => 2 + if |got| < WORDS then WORDS - |got| else 0
    case Look => 3 + WORDS
  }

  /** The consumer goes on to the end of its call. */
  function FinishTake(s: State): (r: State)
    requires s.WellFormed()
    ensures r.WellFormed() && r.prods == s.prods
    decreases TakeTodo(s.cons)
  {
    if s.cons.Away? || (s.cons.Read? && |s.cons.got| >= WORDS) then s else FinishTake(Step(s, Take))
  }

  function WholeCall(s: State, c: Whole): (r: State)
    requires s.WellFormed()
    ensures r.WellFormed() && |r.prods| == |s.prods|
  {
    match c
    case PutWhole(j, q) =>
      if j < |s.prods| && s.prods[j].Out? then Finish(Step(s, Put(j, q)), j) else s
    case TakeWhole => if s.cons.Away? then FinishTake(Step(s, Get)) else s
  }

  function During(s: State, calls: seq<Whole>): (r: State)
    requires s.WellFormed()
    ensures r.WellFormed() && |r.prods| == |s.prods|
    decreases |calls|
  {
    if calls == [] then s else During(WholeCall(s, calls[0]), calls[1..])
  }

  /** What has been taken out and what is queued are together what has been accepted. */
  predicate Account(s: State)
    requires s.WellFormed()
  {
    s.accepted == s.taken + Queued(s.mem, s.head, s.tail)
  }

  lemma {:induction false} FinishTakeSo(s: State)
    requires s.WellFormed() && s.head != s.tail
    requires s.cons.Read? && |s.cons.got| < WORDS && s.cons.got == s.mem[s.tail][..|s.cons.got|]
    ensures FinishTake(s) == s.(tail := Next(s.tail), cons := Away, taken := s.taken + [s.mem[s.tail]])
    decreases TakeTodo(s.cons)
  {
    var t := Step(s, Take);
    if t.cons.Read? {
      FinishTakeSo(t);
    } else {
      assert t.cons.p == s.mem[s.tail];
      assert FinishTake(t) == Step(t, Take);
    }
  }

  lemma TakeFirst(mem: seq<Packet>, head: nat, tail: nat)
    requires |mem| == MAXRING && head < MAXRING && tail < MAXRING && head != tail
    ensures Queued(mem, head, tail) == [mem[tail]] + Queued(mem, head, Next(tail))
  {
  }

  /** A whole call of the consumer takes the oldest packet, or finds nothing exactly when the ring is empty. */
  lemma TakeWholeRight(s: State)
    requires s.WellFormed() && s.cons.Away?
    ensures WholeCall(s, TakeWhole) ==
            if s.head == s.tail then s.(missed := s.missed + 1)
            else s.(tail := Next(s.tail), taken := s.taken + [s.mem[s.tail]])
  {
    var s1 := Step(s, Get);
    var s2 := Step(s1, Take);
    if s.head != s.tail {
      FinishTakeSo(s2);
    } else {
      assert FinishTake(s2) == s2;
    }
  }

  /** And one of a producer puts its packet behind the others, or is refused exactly when the ring is full, whatever
      another producer has been interrupted in. */
  lemma PutWholeRight(s: State, j: nat, q: Packet)
    requires s.WellFormed() && j < |s.prods| && s.prods[j].Out?
    ensures var r := WholeCall(s, PutWhole(j, q));
            r == if Next(s.head) == s.tail then s.(refused := s.refused + 1)
                 else s.(mem := s.mem[s.head := q], head := Next(s.head), accepted := s.accepted + [q])
  {
    var s0 := Step(s, Put(j, q));
    var s1 := ProduceStep(s0, j);
    var s2 := ProduceStep(s1, j);
    assert s0.prods[j := Out] == s.prods && s2.prods[j := Out] == s.prods;
    if Next(s.head) == s.tail {
      assert s2 == s.(refused := s.refused + 1) by {
        assert s2.prods == s.prods;
      }
      assert Finish(s1, j) == Finish(s2, j) == s2;
    } else {
      FinishesSo(s2, j);
      assert Done(s2, j).prods == s.prods;
      assert Finish(s0, j) == Finish(s1, j) == Finish(s2, j);
    }
  }

  lemma WholeKeepsAccount(s: State, c: Whole)
    requires s.WellFormed() && Account(s) && s.cons.Away?
    ensures var r := WholeCall(s, c); Account(r) && r.cons.Away? && r.prods == s.prods
  {
    match c
    case PutWhole(j, q) =>
      if j < |s.prods| && s.prods[j].Out? {
        PutWholeRight(s, j, q);
        PutRight(s, q);
      }
    case TakeWhole =>
      TakeWholeRight(s);
      if s.head != s.tail {
        TakeFirst(s.mem, s.head, s.tail);
        assert s.taken + ([s.mem[s.tail]] + Queued(s.mem, s.head, Next(s.tail))) ==
               s.taken + [s.mem[s.tail]] + Queued(s.mem, s.head, Next(s.tail));
      }
  }

  lemma {:induction false} DuringKeepsAccount(s: State, calls: seq<Whole>)
    requires s.WellFormed() && Account(s) && s.cons.Away?
    ensures var r := During(s, calls); Account(r) && r.cons.Away? && r.prods == s.prods
    decreases |calls|
  {
    if calls != [] {
      WholeKeepsAccount(s, calls[0]);
      DuringKeepsAccount(WholeCall(s, calls[0]), calls[1..]);
    }
  }

  /** A producer is interrupted, any number of whole calls of others and of the consumer come in between, and it goes
      on. The calls in between do what they should; whether its own does is decided by the ring as it then is. */
  lemma InterruptionExact(s: State, i: nat, calls: seq<Whole>)
    requires s.WellFormed() && Account(s) && s.cons.Away? && i < |s.prods| && s.prods[i].Inside()
    ensures var t := During(s, calls);
            && Account(t) && t.prods == s.prods
            && (GoesRight(t, i) <==> Unharmed(t, i))
            && (GoesRight(t, i) ==> Account(Finish(t, i)))
  {
    DuringKeepsAccount(s, calls);
    var t := During(s, calls);
    RightExactly(t, i);
    FinishKeepsTaken(t, i);
    assert Account(t);
    if GoesRight(t, i) && Next(t.head) != t.tail {
      assert t.taken + Queued(t.mem, t.head, t.tail) + [t.prods[i].p] ==
             t.taken + (Queued(t.mem, t.head, t.tail) + [t.prods[i].p]);
    }
  }

  lemma {:induction false} FinishKeepsTaken(s: State, i: nat)
    requires s.WellFormed() && i < |s.prods|
    ensures Finish(s, i).taken == s.taken
    decreases Todo(s.prods[i])
  {
    if !s.prods[i].Out? {
      FinishKeepsTaken(ProduceStep(s, i), i);
    }
  }

  lemma DuringTwo(s: State, c: Whole, d: Whole)
    requires s.WellFormed()
    ensures During(s, [c, d]) == WholeCall(WholeCall(s, c), d)
  {
    assert [c, d][1..] == [d] && [d][1..] == [];
    var s1 := WholeCall(s, c);
    assert During(s1, [d]) == During(WholeCall(s1, d), []);
  }

  /** Two free slots are not enough for two calls in between: all three packets are accepted, and the ring then looks
      empty. */
  lemma TwoCallsEmptyRing(s: State, q1: Packet, q2: Packet)
    requires s.WellFormed() && |s.prods| == 2 && s.prods[0].Pick? && s.prods[1].Out?
    requires Next(Next(Next(s.head))) == s.tail
    ensures var t := During(s, [PutWhole(1, q1), PutWhole(1, q2)]);
            var r := Finish(t, 0);
            && !Unharmed(t, 0)
            && r.accepted == s.accepted + [q1, q2, s.prods[0].p] && Queued(r.mem, r.head, r.tail) == []
  {
    TwoPuts(s, q1, q2);
    FinishesSo(During(s, [PutWhole(1, q1), PutWhole(1, q2)]), 0);
  }

  lemma TwoPuts(s: State, q1: Packet, q2: Packet)
    requires s.WellFormed() && |s.prods| == 2 && s.prods[1].Out?
    requires Next(s.head) != s.tail && Next(Next(s.head)) != s.tail
    ensures During(s, [PutWhole(1, q1), PutWhole(1, q2)]) ==
            s.(mem := s.mem[s.head := q1][Next(s.head) := q2], head := Next(Next(s.head)),
               accepted := s.accepted + [q1] + [q2])
  {
    DuringTwo(s, PutWhole(1, q1), PutWhole(1, q2));
    PutWholeRight(s, 1, q1);
    PutWholeRight(WholeCall(s, PutWhole(1, q1)), 1, q2);
  }

  /** A producer that has read the head of an empty ring is refused after a packet has come and gone. */
  lemma RefusedThoughEmpty(s: State, q: Packet)
    requires s.WellFormed() && |s.prods| == 2 && s.prods[0].Compare? && s.prods[1].Out? && s.cons.Away?
    requires s.head == s.tail == s.prods[0].h
    ensures var t := During(s, [PutWhole(1, q), TakeWhole]);
            var r := Finish(t, 0);
            && !Unharmed(t, 0) && t.taken == s.taken + [q]
            && r.refused == s.refused + 1 && r.accepted == s.accepted + [q] && Queued(r.mem, r.head, r.tail) == []
  {
    PutThenTake(s, q);
    var t := During(s, [PutWhole(1, q), TakeWhole]);
    assert Finish(t, 0) == ProduceStep(t, 0);
  }

  lemma PutThenTake(s: State, q: Packet)
    requires s.WellFormed() && |s.prods| == 2 && s.prods[1].Out? && s.cons.Away? && s.head == s.tail
    ensures During(s, [PutWhole(1, q), TakeWhole]) ==
            s.(mem := s.mem[s.head := q], head := Next(s.head), tail := Next(s.tail),
               accepted := s.accepted + [q], taken := s.taken + [q])
  {
    DuringTwo(s, PutWhole(1, q), TakeWhole);
    PutWholeRight(s, 1, q);
    var t := WholeCall(s, PutWhole(1, q));
    assert t.head != t.tail && t.mem[t.tail] == q && t.cons.Away?;
    TakeWholeRight(t);
  }

  // ---------------------------------------------------------------------------------------------------------------
  // One call in between, in detail.

  /** Where a producer can be interrupted after reading the head for its full-check: `AtWrite(k)` with k words
      written. */
  datatype Stage = AtCompare | AtPick | AtWrite(k: nat) | AtBump | AtStore

  /** A producer of p interrupted at that point, on a ring with the given contents. */
  function Suspended(mem: seq<Packet>, head: nat, tail: nat, at: Stage, p: Packet): (s: State)
    requires |mem| == MAXRING && head < MAXRING && tail < MAXRING && (at.AtWrite? ==> at.k < WORDS)
    ensures s.WellFormed() && |s.prods| == 2
  {
    var (written, prod) :=
      match at
      case AtCompare => (mem, Compare(p, head))
      case AtPick => (mem, Pick(p))
      case AtWrite(k) => (mem[head := p[..k] + mem[head][k..]], Write(p, head, k))
      case AtBump => (mem[head := p], Bump(p))
      case AtStore => (mem[head := p], Store(p, head));
    State(written, head, tail, [prod, Out], Away, [], [], 0, 0)
  }

  /** There another producer puts q, from beginning to end, and then the first one goes on to its end. */
  function Interrupted(mem: seq<Packet>, head: nat, tail: nat, at: Stage, p: Packet, q: Packet): (s: State)
    requires |mem| == MAXRING && head < MAXRING && tail < MAXRING && (at.AtWrite? ==> at.k < WORDS)
    ensures s.WellFormed()
  {
    Finish(Finish(Step(Suspended(mem, head, tail, at, p), Put(1, q)), 1), 0)
  }

  /** Both packets follow what was in the ring, in one order or the other. */
  predicate BothQueued(mem: seq<Packet>, head: nat, tail: nat, at: Stage, p: Packet, q: Packet)
    requires |mem| == MAXRING && head < MAXRING && tail < MAXRING && (at.AtWrite? ==> at.k < WORDS)
  {
    var s := Interrupted(mem, head, tail, at, p, q);
    var before, after := Queued(mem, head, tail), Queued(s.mem, s.head, s.tail);
    after == before + [p, q] || after == before + [q, p]
  }

  /** The second producer's call, from beginning to end, when the ring is not full. */
  lemma PutThrough(s: State, q: Packet) returns (t: State)
    requires s.WellFormed() && |s.prods| == 2 && s.prods[1].Out? && Next(s.head) != s.tail
    ensures t == Finish(Step(s, Put(1, q)), 1)
    ensures t == s.(mem := s.mem[s.head := q], head := Next(s.head), accepted := s.accepted + [q])
  {
    var s0 := Step(s, Put(1, q));
    var s2 := ProduceStep(ProduceStep(s0, 1), 1);
    assert s2.prods == s.prods[1 := Pick(q)];
    FinishesSo(s2, 1);
    t := Done(s2, 1);
    assert t.prods == s.prods;
  }

  /** What memory and head are in the end, when the ring was not full: both calls report success. */
  lemma InterruptedEnds(mem: seq<Packet>, head: nat, tail: nat, at: Stage, p: Packet, q: Packet)
    requires |mem| == MAXRING && head < MAXRING && tail < MAXRING && (at.AtWrite? ==> at.k < WORDS)
    requires Next(head) != tail
    ensures var s := Interrupted(mem, head, tail, at, p, q);
            && s.accepted == [q, p] && s.tail == tail
            && s.head == (if at.AtStore? then Next(head) else Next(Next(head)))
            && s.mem == match at
                        case AtCompare => mem[head := q][Next(head) := p]
                        case AtPick => mem[head := q][Next(head) := p]
                        case AtWrite(k) => mem[head := q[..k] + p[k..]]
                        case AtBump => mem[head := q]
                        case AtStore => mem[head := q]
  {
    var t := PutThrough(Suspended(mem, head, tail, at, p), q);
    if at.AtCompare? {
      FinishesSo(ProduceStep(t, 0), 0);
    } else {
      FinishesSo(t, 0);
    }
  }

  /** The slot after the head when a packet has been put at the head. */
  function After(mem: seq<Packet>, head: nat): Packet
    requires |mem| == MAXRING && head < MAXRING
  {
    mem[Next(head)]
  }

  function Arrivals(mem: seq<Packet>, head: nat, at: Stage, p: Packet, q: Packet): seq<Packet>
    requires |mem| == MAXRING && head < MAXRING && (at.AtWrite? ==> at.k < WORDS)
  {
    match at
    case AtCompare => [q, p]
    case AtPick => [q, p]
    case AtWrite(k) => [q[..k] + p[k..], After(mem, head)]
    case AtBump => [q, After(mem, head)]
    case AtStore => [q]
  }

  /** What the consumer then gets after what was in the ring. Interrupted before it picks its slot the first producer's
      packet just comes second; interrupted while it writes it leaves a packet made of both and after it whatever the
      next slot last held; interrupted before it stores the head it loses its own packet; and unless two slots were
      free the ring looks empty and everything in it is lost. */
  lemma WhatComesOut(mem: seq<Packet>, head: nat, tail: nat, at: Stage, p: Packet, q: Packet)
    requires |mem| == MAXRING && head < MAXRING && tail < MAXRING && (at.AtWrite? ==> at.k < WORDS)
    requires Next(head) != tail
    ensures var s := Interrupted(mem, head, tail, at, p, q);
            var before, after := Queued(mem, head, tail), Queued(s.mem, s.head, s.tail);
            && s.accepted == [q, p]
            && after == if at.AtStore? then before + [q]
                        else if Next(Next(head)) == tail then []
                        else before + Arrivals(mem, head, at, p, q)
  {
    InterruptedEnds(mem, head, tail, at, p, q);
    var first := if at.AtWrite? then q[..at.k] + p[at.k..] else q;
    var second := if at.AtCompare? || at.AtPick? then p else After(mem, head);
    var one := mem[head := first];
    Appended(mem, head, tail, first);
    if !at.AtStore? {
      var s := Interrupted(mem, head, tail, at, p, q);
      assert s.mem == one[Next(head) := second];
      if Next(Next(head)) != tail {
        Appended(one, Next(head), tail, second);
      }
    }
  }

  /** One call in between, with the consumer still, does no harm, whatever the packets and the ring's memory are,
      exactly when the producer has not yet picked its slot and there is room for both packets. */
  lemma OneCallHarmless(head: nat, tail: nat, at: Stage)
    requires head < MAXRING && tail < MAXRING && (at.AtWrite? ==> at.k < WORDS) && Next(head) != tail
    ensures (forall mem: seq<Packet>, p, q :: |mem| == MAXRING ==> BothQueued(mem, head, tail, at, p, q)) <==>
            (at.AtCompare? || at.AtPick?) && Next(Next(head)) != tail
  {
    if (at.AtCompare? || at.AtPick?) && Next(Next(head)) != tail {
      forall mem: seq<Packet>, p, q | |mem| == MAXRING
        ensures BothQueued(mem, head, tail, at, p, q)
      {
        WhatComesOut(mem, head, tail, at, p, q);
      }
    } else {
      var p, q, stale: Packet := [1, 1, 1, 1], [2, 2, 2, 2], [0, 0, 0, 0];
      var mem := seq(MAXRING, _ => stale);
      WhatComesOut(mem, head, tail, at, p, q);
      StaleIsNew(mem, head, tail, at, p, q);
      assert !BothQueued(mem, head, tail, at, p, q);
    }
  }

  lemma StaleIsNew(mem: seq<Packet>, head: nat, tail: nat, at: Stage, p: Packet, q: Packet)
    requires |mem| == MAXRING && head < MAXRING && tail < MAXRING && (at.AtWrite? ==> at.k < WORDS)
    requires Next(head) != tail && !((at.AtCompare? || at.AtPick?) && Next(Next(head)) != tail)
    requires After(mem, head) != p && After(mem, head) != q
    ensures !BothQueued(mem, head, tail, at, p, q)
  {
    WhatComesOut(mem, head, tail, at, p, q);
    var before := Queued(mem, head, tail);
    var s := Interrupted(mem, head, tail, at, p, q);
    var after := Queued(s.mem, s.head, s.tail);
    var n := |before|;
    assert (before + [p, q])[n + 1] == q && (before + [q, p])[n + 1] == p;
    if !at.AtStore? && Next(Next(head)) != tail {
      assert after[n + 1] == After(mem, head);
    }
  }

  /** Going on to the end is a run. */
  lemma {:induction false} FinishRuns(s: State, i: nat) returns (acts: seq<Action>)
    requires s.WellFormed() && i < |s.prods|
    ensures Exec(s, acts) == Finish(s, i)
    decreases Todo(s.prods[i])
  {
    acts := [];
    if !s.prods[i].Out? {
      var rest := FinishRuns(ProduceStep(s, i), i);
      acts := [Produce(i)] + rest;
      assert acts[1..] == rest;
    }
  }

  lemma {:induction false} ExecSplit(s: State, a: seq<Action>, b: seq<Action>)
    requires s.WellFormed()
    ensures Exec(s, a + b) == Exec(Exec(s, a), b)
    decreases |a|
  {
    if a == [] {
      assert a + b == b;
    } else {
      var first, rest := a[0], a[1..];
      assert a == [first] + rest && a + b == [first] + (rest + b);
      OneStep(s, first, rest);
      OneStep(s, first, rest + b);
      ExecSplit(Step(s, first), rest, b);
    }
  }

  /** A producer of an empty ring with two words written. */
  lemma HalfWritten(mem: seq<Packet>, p: Packet) returns (acts: seq<Action>)
    requires |mem| == MAXRING
    ensures Exec(Init(mem, 2), acts) == Suspended(mem, 0, 0, AtWrite(2), p)
  {
    var s0 := Init(mem, 2);
    var s1 := Step(s0, Put(0, p));
    var s2 := ProduceStep(s1, 0);
    var s3 := ProduceStep(s2, 0);
    var s4 := ProduceStep(s3, 0);
    HalfReached(mem, p);
    acts := Onward(s4, Produce(0), Onward(ProduceStep(s4, 0), Produce(0), []));
    acts := Onward(s1, Produce(0), Onward(s2, Produce(0), Onward(s3, Produce(0), acts)));
    acts := Onward(s0, Put(0, p), acts);
  }

  lemma HalfReached(mem: seq<Packet>, p: Packet)
    requires |mem| == MAXRING
    ensures var s4 := ProduceStep(ProduceStep(ProduceStep(Step(Init(mem, 2), Put(0, p)), 0), 0), 0);
            ProduceStep(ProduceStep(s4, 0), 0) == Suspended(mem, 0, 0, AtWrite(2), p)
  {
    var s4 := ProduceStep(ProduceStep(ProduceStep(Step(Init(mem, 2), Put(0, p)), 0), 0), 0);
    assert s4 == Init(mem, 2).(prods := [Write(p, 0, 0), Out]);
    var one := mem[0][0 := p[0]];
    var s5 := ProduceStep(s4, 0);
    assert s5 == Init(mem, 2).(mem := mem[0 := one], prods := [Write(p, 0, 1), Out]);
    assert one[1 := p[1]] == p[..2] + mem[0][2..];
    assert ProduceStep(s5, 0).mem == mem[0 := p[..2] + mem[0][2..]];
    assert ProduceStep(s5, 0).prods == [Write(p, 0, 2), Out];
  }

  /** A step, and then a run from where it leads. */
  function Onward(s: State, a: Action, rest: seq<Action>): (acts: seq<Action>)
    requires s.WellFormed()
    ensures Exec(s, acts) == Exec(Step(s, a), rest)
  {
    OneStep(s, a, rest);
    [a] + rest
  }

  lemma OneStep(s: State, a: Action, rest: seq<Action>)
    requires s.WellFormed()
    ensures Exec(s, [a] + rest) == Exec(Step(s, a), rest)
  {
    assert ([a] + rest)[1..] == rest;
  }

  /** A run from an empty ring: two packets are accepted, and the second one in the ring is neither. */
  lemma StaleSlotDelivered(mem: seq<Packet>, p: Packet, q: Packet) returns (acts: seq<Action>)
    requires |mem| == MAXRING && mem[1] != p && mem[1] != q
    ensures var s := Exec(Init(mem, 2), acts);
            && s.accepted == [q, p] && s.taken == []
            && Queued(s.mem, s.head, s.tail) == [[q[0], q[1], p[2], p[3]], mem[1]]
  {
    WhatComesOut(mem, 0, 0, AtWrite(2), p, q);
    assert q[..2] + p[2..] == [q[0], q[1], p[2], p[3]];
    var first := HalfWritten(mem, p);
    var s := Suspended(mem, 0, 0, AtWrite(2), p);
    var s1 := Step(s, Put(1, q));
    var second := FinishRuns(s1, 1);
    var s2 := Finish(s1, 1);
    var third := FinishRuns(s2, 0);
    OneStep(s, Put(1, q), second + third);
    ExecSplit(s1, second, third);
    acts := first + ([Put(1, q)] + (second + third));
    ExecSplit(Init(mem, 2), first, [Put(1, q)] + (second + third));
    FinishKeepsTaken(s1, 1);
    FinishKeepsTaken(s2, 0);
  }
}
