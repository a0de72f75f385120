/** Cross calls between processors: the caller and the level-15 handlers as one machine whose steps are single
    memory accesses, taken in any order. A call is the function word and its five arguments.
*/
module CrossCall {

  import opened Options

  const CALL_WORDS := 6

  type Call = c: seq<int> | |c| == CALL_WORDS witness [0, 0, 0, 0, 0, 0]

  /** Array size (NR_CPUS), `smp_num_cpus`, and the processors whose bit is set in `cpu_present_map`. */
  datatype Config = Config(slots: nat, ncpus: nat, present: set<nat>) {
    ghost predicate Valid() {
      1 <= ncpus <= slots && forall p :: p in present ==> p < slots
    }
  }

  /** Where a processor stands in smp4m_cross_call. `Fill(c, k)`: about to write word k of ccall_info;
      `Fire(c, i, sub)`: in the loop at index i, `sub` of its writes done; `WaitIn`/`WaitOut`: spinning on index i. */
  datatype Main =
    | Idle
    | Want(call: Call)
    | Fill(call: Call, k: nat)
    | Fire(call: Call, i: nat, sub: nat)
    | Local(call: Call, inside: bool)
    | WaitIn(call: Call, i: nat)
    | WaitOut(call: Call, i: nat)
    | Release(call: Call)
  {
    predicate InCall() {
      !Idle? && !Want?
    }
  }

  /** Where a processor stands in smp4m_cross_call_irq. */
  datatype Irq =
    | NoIrq
    | Enter
    | Load(regs: seq<int>)
    | Inside(args: Call)
    | Leave

  /** One processor's slots of `processors_in` and `processors_out`, its level-15 pending bit, its handler, and what
      it has executed so far (which the program never reads). */
  datatype Cpu = Cpu(inn: bool, out: bool, pend: bool, irq: Irq, ran: seq<Call>)

  datatype Issued = Issued(caller: nat, call: Call)

  /** `calls` lists the calls in the order they took the lock; the program never reads it. */
  datatype State = State(lock: Option<nat>, info: seq<int>, cpus: seq<Cpu>, main: seq<Main>, calls: seq<Issued>)

  /** `Invoke`: a processor enters smp4m_cross_call; `Proceed`: it makes its next access there; `Deliver`: its
      pending level 15 is taken; `Handler`: the handler makes its next access. Level 15 interrupts a processor at any
      point, also while it spins on the lock, and holds up its main thread until the handler is done. */
  datatype Action = Invoke(cpu: nat, call: Call) | Proceed(cpu: nat) | Deliver(cpu: nat) | Handler(cpu: nat)

  function Init(g: Config): State {
    State(None, seq(CALL_WORDS, _ => 0), seq(g.slots, _ => Cpu(false, false, false, NoIrq, [])),
          seq(g.slots, _ => Idle), [])
  }

  predicate InRange(g: Config, j: nat, m: Main) {
    match m
    case Fill(_, k) => k < CALL_WORDS
    case Fire(_, i, sub) => i < g.ncpus && sub <= (if Target(g, j, i) then 2 else 1)
    case WaitIn(_, i) => i < g.ncpus
    case WaitOut(_, i) => i < g.ncpus
    case _ => true
  }

  ghost predicate Shape(g: Config, s: State) {
    && g.Valid()
    && |s.info| == CALL_WORDS
    && |s.cpus| == |s.main| == g.slots
    && forall j :: 0 <= j < g.slots ==> InRange(g, j, s.main[j])
  }

  /** The processors the firing loop interrupts. */
  predicate Target(g: Config, caller: nat, t: nat) {
    t < g.ncpus && t in g.present && t != caller
  }

  /** The processors that run the function at all. */
  predicate Covered(g: Config, caller: nat, t: nat) {
    t == caller || Target(g, caller, t)
  }

  ghost predicate Enabled(g: Config, s: State, a: Action)
    requires Shape(g, s)
  {
    && a.cpu < g.slots
    && match a
       case Invoke(j, _) => j in g.present && s.cpus[j].irq.NoIrq? && s.main[j].Idle?
       case Deliver(j) => s.cpus[j].irq.NoIrq? && s.cpus[j].pend
       case Handler(j) => !s.cpus[j].irq.NoIrq?
       case Proceed(j) => s.cpus[j].irq.NoIrq? && CanProceed(g, s, s.main[j])
  }

  ghost predicate CanProceed(g: Config, s: State, m: Main)
    requires Shape(g, s)
  {
    match m
    case Idle => false
    case Want(_) => s.lock.None?
    case WaitIn(_, i) => i < g.slots && s.cpus[i].inn
    case WaitOut(_, i) => i < g.slots && s.cpus[i].out
    case _ => true
  }

  /** The firing loop after the last write for index i. */
  function NextFire(g: Config, c: Call, i: nat): Main {
    if i + 1 < g.ncpus then Fire(c, i + 1, 0) else Local(c, false)
  }

  /** The write the firing loop makes for index i when `sub` of its writes are done. */
  function FireWrite(v: Cpu, target: bool, sub: nat): Cpu {
    if sub == 0 then v.(inn := !target)
    else if sub == 1 then v.(out := !target)
    else v.(pend := true)
  }

  function MainStep(g: Config, s: State, j: nat): State
    requires Shape(g, s) && Enabled(g, s, Proceed(j))
  {
    match s.main[j]
    case Idle => s
    case Want(c) =>
      s.(lock := Some(j), main := s.main[j := Fill(c, 0)], calls := s.calls + [Issued(j, c)])
    case Fill(c, k) =>
      s.(info := s.info[k := c[k]],
         main := s.main[j := if k + 1 < CALL_WORDS then Fill(c, k + 1) else Fire(c, 0, 0)])
    case Fire(c, i, sub) =>
      var last := if Target(g, j, i) then 2 else 1;
      s.(cpus := s.cpus[i := FireWrite(s.cpus[i], Target(g, j, i), sub)],
         main := s.main[j := if sub < last then Fire(c, i, sub + 1) else NextFire(g, c, i)])
    case Local(c, inside) =>
      if !inside then s.(main := s.main[j := Local(c, true)])
      else s.(cpus := s.cpus[j := s.cpus[j].(ran := s.cpus[j].ran + [c])], main := s.main[j := WaitIn(c, 0)])
    case WaitIn(c, i) =>
      s.(main := s.main[j := if i + 1 < g.ncpus then WaitIn(c, i + 1) else WaitOut(c, 0)])
    case WaitOut(c, i) =>
      s.(main := s.main[j := if i + 1 < g.ncpus then WaitOut(c, i + 1) else Release(c)])
    case Release(_) =>
      s.(lock := None, main := s.main[j := Idle])
  }

  function IrqStep(v: Cpu, info: seq<int>): Cpu
    requires |info| == CALL_WORDS
  {
    match v.irq
    case NoIrq => v
    case Enter => v.(inn := true, irq := Load([]))
    case Load(regs) =>
      var k := |regs|;
      if k >= CALL_WORDS then v
      else if k + 1 == CALL_WORDS then v.(irq := Inside(regs + [info[k]]))
      else v.(irq := Load(regs + [info[k]]))
    case Inside(args) => v.(ran := v.ran + [args], irq := Leave)
    case Leave => v.(out := true, irq := NoIrq)
  }

  function Step(g: Config, s: State, a: Action): State
    requires Shape(g, s) && Enabled(g, s, a)
  {
    match a
    case Invoke(j, c) => s.(main := s.main[j := Want(c)])
    case Proceed(j) => MainStep(g, s, j)
    case Deliver(j) => s.(cpus := s.cpus[j := s.cpus[j].(pend := false, irq := Enter)])
    case Handler(j) => s.(cpus := s.cpus[j := IrqStep(s.cpus[j], s.info)])
  }

  /** `acts` can be taken one after the other from `s`. */
  ghost predicate Legal(g: Config, s: State, acts: seq<Action>)
    decreases |acts|
  {
    Shape(g, s) &&
    (acts != [] ==> Enabled(g, s, acts[0]) && Legal(g, Step(g, s, acts[0]), acts[1..]))
  }

  ghost function Exec(g: Config, s: State, acts: seq<Action>): (r: State)
    requires Legal(g, s, acts)
    ensures Shape(g, r)
    decreases |acts|
  {
    if acts == [] then s else Exec(g, Step(g, s, acts[0]), acts[1..])
  }

  /** What processor t must have executed once the given calls are over. */
  ghost function Expected(g: Config, calls: seq<Issued>, t: nat): seq<Call> {
    if calls == [] then []
    else
      var n := |calls| - 1;
      Expected(g, calls[..n], t) + (if Covered(g, calls[n].caller, t) then [calls[n].call] else [])
  }

  // ---------------------------------------------------------------------------------------------------------------
  // The invariant.

  predicate Quiet(v: Cpu) {
    !v.pend && v.irq.NoIrq?
  }

  /** An interrupted processor has come this far with call c; `base` is what it ran before. */
  predicate Served(v: Cpu, c: Call, base: seq<Call>) {
    match v.irq
    case NoIrq => if v.pend then !v.inn && !v.out && v.ran == base else v.inn && v.out && v.ran == base + [c]
    case Enter => !v.pend && !v.inn && !v.out && v.ran == base
    case Load(regs) =>
      !v.pend && v.inn && !v.out && v.ran == base && |regs| < CALL_WORDS && regs == c[..|regs|]
    case Inside(args) => !v.pend && v.inn && !v.out && v.ran == base && args == c
    case Leave => !v.pend && v.inn && !v.out && v.ran == base + [c]
  }

  /** Processor t while caller h works on call c and its firing loop has dealt with the indices below `fired`. */
  predicate Cell(g: Config, h: nat, c: Call, fired: nat, t: nat, v: Cpu, base: seq<Call>) {
    if t < fired && Target(g, h, t) then Served(v, c, base)
    else Quiet(v) && (t != h ==> v.ran == base) && (t < fired ==> v.inn && v.out)
  }

  ghost predicate Fired(g: Config, s: State, h: nat, c: Call, fired: nat)
    requires Shape(g, s) && s.calls != []
  {
    var before := s.calls[..|s.calls| - 1];
    forall t :: 0 <= t < g.slots ==> Cell(g, h, c, fired, t, s.cpus[t], Expected(g, before, t))
  }

  /** The caller h of call c is at the point m of smp4m_cross_call; `base` is what it ran before. */
  ghost predicate Phase(g: Config, s: State, h: nat, c: Call, m: Main, base: seq<Call>)
    requires Shape(g, s) && h < g.slots && s.calls != [] && InRange(g, h, m)
  {
    match m
    case Fill(_, k) => s.info[..k] == c[..k] && Fired(g, s, h, c, 0) && s.cpus[h].ran == base
    case Fire(_, i, sub) =>
      && s.info == c && Fired(g, s, h, c, i) && s.cpus[h].ran == base
      && (sub >= 1 ==> s.cpus[i].inn == !Target(g, h, i))
      && (sub >= 2 ==> !s.cpus[i].out)
    case Local(_, _) => s.info == c && Fired(g, s, h, c, g.ncpus) && s.cpus[h].ran == base
    case WaitIn(_, i) =>
      && s.info == c && Fired(g, s, h, c, g.ncpus) && s.cpus[h].ran == base + [c]
      && forall t :: 0 <= t < i ==> s.cpus[t].inn
    case WaitOut(_, i) =>
      && s.info == c && Fired(g, s, h, c, g.ncpus) && s.cpus[h].ran == base + [c]
      && (forall t :: 0 <= t < g.ncpus ==> s.cpus[t].inn)
      && forall t :: 0 <= t < i ==> s.cpus[t].out
    case Release(_) =>
      && s.info == c && Fired(g, s, h, c, g.ncpus) && s.cpus[h].ran == base + [c]
      && forall t :: 0 <= t < g.ncpus ==> s.cpus[t].out
    case _ => false
  }

  ghost predicate Holding(g: Config, s: State, h: nat)
    requires Shape(g, s) && h < g.slots
  {
    && s.calls != []
    && h in g.present
    && s.main[h].InCall()
    && s.calls[|s.calls| - 1] == Issued(h, s.main[h].call)
    && Phase(g, s, h, s.main[h].call, s.main[h], Expected(g, s.calls[..|s.calls| - 1], h))
  }

  ghost predicate Inv(g: Config, s: State) {
    && Shape(g, s)
    && (forall j :: 0 <= j < g.slots && s.main[j].InCall() ==> s.lock == Some(j))
    && (forall j :: 0 <= j < g.slots && !s.main[j].Idle? ==> j in g.present)
    && match s.lock
       case None => forall t :: 0 <= t < g.slots ==> Quiet(s.cpus[t]) && s.cpus[t].ran == Expected(g, s.calls, t)
       case Some(h) => h < g.slots && Holding(g, s, h)
  }

  // ---------------------------------------------------------------------------------------------------------------
  // Every step keeps the invariant.

  lemma InvokeKeepsInv(g: Config, s: State, j: nat, c: Call)
    requires Inv(g, s) && Enabled(g, s, Invoke(j, c))
    ensures Inv(g, Step(g, s, Invoke(j, c)))
  {
  }

  lemma DeliverKeepsInv(g: Config, s: State, j: nat)
    requires Inv(g, s) && Enabled(g, s, Deliver(j))
    ensures Inv(g, Step(g, s, Deliver(j)))
  {
  }

  lemma HandlerKeepsCell(g: Config, h: nat, c: Call, fired: nat, t: nat, v: Cpu, base: seq<Call>)
    requires Cell(g, h, c, fired, t, v, base) && !v.irq.NoIrq?
    ensures var v' := IrqStep(v, c);
            Cell(g, h, c, fired, t, v', base) && (v.inn ==> v'.inn) && (v.out ==> v'.out) && t != h
  {
  }

  /** How far the firing loop of the caller has come. */
  function FiredBelow(g: Config, m: Main): nat {
    if m.Fill? then 0 else if m.Fire? then m.i else g.ncpus
  }

  lemma HandlerKeepsInv(g: Config, s: State, j: nat)
    requires Inv(g, s) && Enabled(g, s, Handler(j))
    ensures Inv(g, Step(g, s, Handler(j)))
  {
    var m := s.main[s.lock.value];
    HandlerKeepsCell(g, s.lock.value, m.call, FiredBelow(g, m), j, s.cpus[j],
                     Expected(g, s.calls[..|s.calls| - 1], j));
  }

  lemma LockKeepsInv(g: Config, s: State, j: nat)
    requires Inv(g, s) && Enabled(g, s, Proceed(j)) && s.main[j].Want?
    ensures Inv(g, Step(g, s, Proceed(j)))
  {
  }

  lemma FillKeepsInv(g: Config, s: State, j: nat)
    requires Inv(g, s) && Enabled(g, s, Proceed(j)) && s.main[j].Fill?
    ensures Inv(g, Step(g, s, Proceed(j)))
  {
  }

  lemma FireKeepsInv(g: Config, s: State, j: nat)
    requires Inv(g, s) && Enabled(g, s, Proceed(j)) && s.main[j].Fire?
    ensures Inv(g, Step(g, s, Proceed(j)))
  {
  }

  lemma LocalKeepsInv(g: Config, s: State, j: nat)
    requires Inv(g, s) && Enabled(g, s, Proceed(j)) && s.main[j].Local?
    ensures Inv(g, Step(g, s, Proceed(j)))
  {
  }

  lemma WaitInKeepsInv(g: Config, s: State, j: nat)
    requires Inv(g, s) && Enabled(g, s, Proceed(j)) && s.main[j].WaitIn?
    ensures Inv(g, Step(g, s, Proceed(j)))
  {
  }

  lemma WaitOutKeepsInv(g: Config, s: State, j: nat)
    requires Inv(g, s) && Enabled(g, s, Proceed(j)) && s.main[j].WaitOut?
    ensures Inv(g, Step(g, s, Proceed(j)))
  {
  }

  lemma ReleaseKeepsInv(g: Config, s: State, j: nat)
    requires Inv(g, s) && Enabled(g, s, Proceed(j)) && s.main[j].Release?
    ensures Inv(g, Step(g, s, Proceed(j)))
  {
  }

  lemma StepKeepsInv(g: Config, s: State, a: Action)
    requires Inv(g, s) && Enabled(g, s, a)
    ensures Inv(g, Step(g, s, a))
  {
    match a
    case Invoke(j, c) => InvokeKeepsInv(g, s, j, c);
    case Deliver(j) => DeliverKeepsInv(g, s, j);
    case Handler(j) => HandlerKeepsInv(g, s, j);
    case Proceed(j) =>
      match s.main[j]
      case Want(_) => LockKeepsInv(g, s, j);
      case Fill(_, _) => FillKeepsInv(g, s, j);
      case Fire(_, _, _) => FireKeepsInv(g, s, j);
      case Local(_, _) => LocalKeepsInv(g, s, j);
      case WaitIn(_, _) => WaitInKeepsInv(g, s, j);
      case WaitOut(_, _) => WaitOutKeepsInv(g, s, j);
      case Release(_) => ReleaseKeepsInv(g, s, j);
  }

  lemma {:induction false} RunKeepsInv(g: Config, s: State, acts: seq<Action>)
    requires Inv(g, s) && Legal(g, s, acts)
    ensures Inv(g, Exec(g, s, acts))
    decreases |acts|
  {
    if acts != [] {
      StepKeepsInv(g, s, acts[0]);
      RunKeepsInv(g, Step(g, s, acts[0]), acts[1..]);
    }
  }

  lemma ReachableInv(g: Config, acts: seq<Action>)
    requires g.Valid() && Legal(g, Init(g), acts)
    ensures Inv(g, Exec(g, Init(g), acts))
  {
    RunKeepsInv(g, Init(g), acts);
  }

  // ---------------------------------------------------------------------------------------------------------------
  // What is invoked is what is called.

  /** The calls processor j makes in a run, as it makes them. */
  function InvokedBy(acts: seq<Action>, j: nat): seq<Call> {
    if acts == [] then []
    else (if acts[0].Invoke? && acts[0].cpu == j then [acts[0].call] else []) + InvokedBy(acts[1..], j)
  }

  /** Those of its calls that have taken the lock, in order. */
  function CallsBy(calls: seq<Issued>, j: nat): seq<Call> {
    if calls == [] then []
    else
      var n := |calls| - 1;
      CallsBy(calls[..n], j) + (if calls[n].caller == j then [calls[n].call] else [])
  }

  /** And the one that has not yet, if it is waiting for the lock. */
  function Wanted(s: State, j: nat): seq<Call> {
    if j < |s.main| && s.main[j].Want? then [s.main[j].call] else []
  }

  lemma StepCalls(g: Config, s: State, a: Action, j: nat)
    requires Shape(g, s) && Enabled(g, s, a)
    ensures var t := Step(g, s, a);
            CallsBy(t.calls, j) + Wanted(t, j) == CallsBy(s.calls, j) + Wanted(s, j) + InvokedBy([a], j)
  {
    var t := Step(g, s, a);
    assert [a][1..] == [];
    assert InvokedBy([a], j) == if a.Invoke? && a.cpu == j then [a.call] else [];
    if a.Proceed? && s.main[a.cpu].Want? {
      assert t.calls[..|t.calls| - 1] == s.calls;
    }
  }

  lemma {:induction false} ExecCalls(g: Config, s: State, acts: seq<Action>, j: nat)
    requires Legal(g, s, acts)
    ensures var t := Exec(g, s, acts);
            CallsBy(t.calls, j) + Wanted(t, j) == CallsBy(s.calls, j) + Wanted(s, j) + InvokedBy(acts, j)
    decreases |acts|
  {
    if acts != [] {
      StepCalls(g, s, acts[0], j);
      ExecCalls(g, Step(g, s, acts[0]), acts[1..], j);
      FirstInvoked(acts, j);
      Joined(CallsBy(s.calls, j) + Wanted(s, j), InvokedBy([acts[0]], j), InvokedBy(acts[1..], j));
    }
  }

  lemma FirstInvoked(acts: seq<Action>, j: nat)
    requires acts != []
    ensures InvokedBy(acts, j) == InvokedBy([acts[0]], j) + InvokedBy(acts[1..], j)
  {
    assert [acts[0]][1..] == [];
  }

  lemma Joined(a: seq<Call>, b: seq<Call>, c: seq<Call>)
    ensures a + b + c == a + (b + c)
  {
  }

  /** Every processor's calls take the lock as it made them: function and arguments, in order, none lost but the one it
      is waiting with. */
  lemma CallsAreInvoked(g: Config, acts: seq<Action>, j: nat)
    requires g.Valid() && Legal(g, Init(g), acts)
    ensures var s := Exec(g, Init(g), acts);
            InvokedBy(acts, j) == CallsBy(s.calls, j) + Wanted(s, j)
  {
    ExecCalls(g, Init(g), acts, j);
    assert CallsBy(Init(g).calls, j) + Wanted(Init(g), j) == [];
  }

  // ---------------------------------------------------------------------------------------------------------------
  // What a cross call promises.

  lemma LastCall(g: Config, acts: seq<Action>, j: nat)
    requires g.Valid() && Legal(g, Init(g), acts) && j < g.slots
    requires var s := Exec(g, Init(g), acts);
             s.main[j].InCall() && s.calls != [] && s.calls[|s.calls| - 1] == Issued(j, s.main[j].call)
    ensures var own := InvokedBy(acts, j);
            own != [] && own[|own| - 1] == Exec(g, Init(g), acts).main[j].call
  {
    CallsAreInvoked(g, acts, j);
  }

  /** The barrier. When the call of processor j, the last one it invoked, is about to return, nobody is inside it or
      still to be interrupted; every processor the loop covers has run this call's function once with its five
      arguments since the lock was taken, and no other has run anything. So all present processors have run it exactly
      when each one but the caller has an index below `smp_num_cpus`. */
  lemma Barrier(g: Config, acts: seq<Action>, j: nat)
    requires g.Valid() && Legal(g, Init(g), acts) && j < g.slots
    requires Exec(g, Init(g), acts).main[j].Release?
    ensures var s := Exec(g, Init(g), acts);
            && s.calls != [] && s.calls[|s.calls| - 1] == Issued(j, s.main[j].call)
            && var before := s.calls[..|s.calls| - 1];
               var c := s.main[j].call;
               && InvokedBy(acts, j) != [] && c == InvokedBy(acts, j)[|InvokedBy(acts, j)| - 1]
               && (forall t :: 0 <= t < g.slots ==> Quiet(s.cpus[t]))
               && (forall t :: 0 <= t < g.slots ==>
                     s.cpus[t].ran == Expected(g, before, t) + (if Covered(g, j, t) then [c] else []))
               && ((forall t: nat :: t in g.present ==> s.cpus[t].ran == Expected(g, before, t) + [c]) <==>
                   (forall t: nat :: t in g.present && t != j ==> t < g.ncpus))
  {
    ReachableInv(g, acts);
    var s := Exec(g, Init(g), acts);
    var c := s.main[j].call;
    var before := s.calls[..|s.calls| - 1];
    assert Phase(g, s, j, c, s.main[j], Expected(g, before, j));
    LastCall(g, acts, j);
    forall t | 0 <= t < g.slots
      ensures Quiet(s.cpus[t])
      ensures s.cpus[t].ran == Expected(g, before, t) + (if Covered(g, j, t) then [c] else [])
    {
      assert Cell(g, j, c, g.ncpus, t, s.cpus[t], Expected(g, before, t));
    }
    forall t: nat | t in g.present && t != j && t >= g.ncpus
      ensures s.cpus[t].ran != Expected(g, before, t) + [c]
    {
      assert |s.cpus[t].ran| == |Expected(g, before, t)|;
    }
  }

  /** A handler only ever holds words of the call that has the lock, and that call is fully published. */
  lemma Isolation(g: Config, acts: seq<Action>, t: nat)
    requires g.Valid() && Legal(g, Init(g), acts) && t < g.slots
    requires !Exec(g, Init(g), acts).cpus[t].irq.NoIrq?
    ensures var s := Exec(g, Init(g), acts);
            && s.calls != []
            && var cur := s.calls[|s.calls| - 1];
               && s.lock == Some(cur.caller) && Target(g, cur.caller, t)
               && s.info == cur.call
               && (s.cpus[t].irq.Load? ==> s.cpus[t].irq.regs <= cur.call)
               && (s.cpus[t].irq.Inside? ==> s.cpus[t].irq.args == cur.call)
  {
    ReachableInv(g, acts);
  }

  /** When the loop is about to raise level 15 on processor i, none is pending there and no handler is running. */
  lemma NeverPendingTwice(g: Config, acts: seq<Action>, j: nat)
    requires g.Valid() && Legal(g, Init(g), acts) && j < g.slots
    requires var m := Exec(g, Init(g), acts).main[j]; m.Fire? && m.sub == 2
    ensures var s := Exec(g, Init(g), acts);
            var i := s.main[j].i;
            i < g.slots && i != j && Quiet(s.cpus[i]) && !s.cpus[i].inn && !s.cpus[i].out
  {
    ReachableInv(g, acts);
    var s := Exec(g, Init(g), acts);
    assert Phase(g, s, j, s.main[j].call, s.main[j], Expected(g, s.calls[..|s.calls| - 1], j));
    assert Cell(g, j, s.main[j].call, s.main[j].i, s.main[j].i, s.cpus[s.main[j].i],
                Expected(g, s.calls[..|s.calls| - 1], s.main[j].i));
  }

  function Functions(calls: seq<Issued>): seq<Call> {
    seq(|calls|, i requires 0 <= i < |calls| => calls[i].call)
  }

  lemma {:induction false} ExpectedAll(g: Config, calls: seq<Issued>, t: nat)
    requires t in g.present && t < g.ncpus
    ensures Expected(g, calls, t) == Functions(calls)
  {
    if calls != [] {
      var n := |calls| - 1;
      ExpectedAll(g, calls[..n], t);
      assert Functions(calls) == Functions(calls[..n]) + [calls[n].call];
    }
  }

  /** Whenever the lock is free, every present processor below `smp_num_cpus` has executed every cross call ever
      made, once each, in the order in which the calls took the lock; and these are, for each caller, the calls it
      invoked. */
  lemma SameOrderEverywhere(g: Config, acts: seq<Action>, t: nat)
    requires g.Valid() && Legal(g, Init(g), acts) && t in g.present && t < g.ncpus
    requires Exec(g, Init(g), acts).lock.None?
    ensures var s := Exec(g, Init(g), acts);
            && s.cpus[t].ran == Functions(s.calls)
            && forall j: nat :: InvokedBy(acts, j) == CallsBy(s.calls, j) + Wanted(s, j)
  {
    forall j: nat
      ensures InvokedBy(acts, j) == CallsBy(Exec(g, Init(g), acts).calls, j) + Wanted(Exec(g, Init(g), acts), j)
    {
      CallsAreInvoked(g, acts, j);
    }
    ReachableInv(g, acts);
    ExpectedAll(g, Exec(g, Init(g), acts).calls, t);
  }

  // ---------------------------------------------------------------------------------------------------------------
  // Progress.

  /** An upper bound on the accesses a processor still has to make in its call, with room for those its firing loop
      will cause in other processors' handlers. */
  function MainWork(g: Config, m: Main): nat
    requires g.ncpus >= 1
  {
    match m
    case Idle => 0
    case Release(_) => 1
    case WaitOut(_, i) => 1 + if i < g.ncpus then g.ncpus - i else 0
    case WaitIn(_, i) => 1 + g.ncpus + if i < g.ncpus then g.ncpus - i else 0
    case Local(_, inside) => if inside then 2 + 2 * g.ncpus else 3 + 2 * g.ncpus
    case Fire(_, i, sub) => 4 + 2 * g.ncpus + if i < g.ncpus && sub <= 2 then 16 * (g.ncpus - i) - sub else 0
    case Fill(_, k) => 4 + 18 * g.ncpus + if k < CALL_WORDS then CALL_WORDS - k else 0
    case Want(_) => 5 + 18 * g.ncpus + CALL_WORDS
  }

  function IrqWork(v: Cpu): nat {
    (if v.pend then 10 else 0) +
    match v.irq
    case NoIrq => 0
    case Enter => 9
    case Load(regs) => if |regs| < CALL_WORDS then 8 - |regs| else 0
    case Inside(_) => 2
    case Leave => 1
  }

  function MainTotal(g: Config, ms: seq<Main>): nat
    requires g.ncpus >= 1
  {
    if ms == [] then 0 else MainWork(g, ms[0]) + MainTotal(g, ms[1..])
  }

  function IrqTotal(vs: seq<Cpu>): nat {
    if vs == [] then 0 else IrqWork(vs[0]) + IrqTotal(vs[1..])
  }

  function Work(g: Config, s: State): nat
    requires g.ncpus >= 1
  {
    MainTotal(g, s.main) + IrqTotal(s.cpus)
  }

  lemma {:induction false} MainTotalUpdate(g: Config, ms: seq<Main>, j: nat, m: Main)
    requires g.ncpus >= 1 && j < |ms|
    ensures MainTotal(g, ms[j := m]) == MainTotal(g, ms) - MainWork(g, ms[j]) + MainWork(g, m)
  {
    if j == 0 {
      assert ms[0 := m][1..] == ms[1..];
    } else {
      MainTotalUpdate(g, ms[1..], j - 1, m);
      assert ms[j := m][1..] == ms[1..][j - 1 := m];
    }
  }

  lemma {:induction false} IrqTotalUpdate(vs: seq<Cpu>, j: nat, v: Cpu)
    requires j < |vs|
    ensures IrqTotal(vs[j := v]) == IrqTotal(vs) - IrqWork(vs[j]) + IrqWork(v)
  {
    if j == 0 {
      assert vs[0 := v][1..] == vs[1..];
    } else {
      IrqTotalUpdate(vs[1..], j - 1, v);
      assert vs[j := v][1..] == vs[1..][j - 1 := v];
    }
  }

  /** A handler step, or the delivery that starts it, lowers its processor's work. */
  lemma HandlerLowersWork(g: Config, s: State, j: nat)
    requires Inv(g, s) && j < g.slots && !Quiet(s.cpus[j])
    ensures s.cpus[j].irq.NoIrq? ==> IrqWork(s.cpus[j].(pend := false, irq := Enter)) < IrqWork(s.cpus[j])
    ensures !s.cpus[j].irq.NoIrq? ==> IrqWork(IrqStep(s.cpus[j], s.info)) < IrqWork(s.cpus[j])
  {
    var h := s.lock.value;
    var before := s.calls[..|s.calls| - 1];
    assert Cell(g, h, s.main[h].call, FiredBelow(g, s.main[h]), j, s.cpus[j], Expected(g, before, j));
  }

  /** A step of the firing loop pays for the handler it may cause. */
  lemma FireLowersWork(g: Config, s: State, j: nat)
    requires Inv(g, s) && Enabled(g, s, Proceed(j)) && s.main[j].Fire?
    ensures var i := s.main[j].i;
            var s' := Step(g, s, Proceed(j));
            MainWork(g, s'.main[j]) + IrqWork(s'.cpus[i]) < MainWork(g, s.main[j]) + IrqWork(s.cpus[i])
  {
  }

  lemma OtherLowersWork(g: Config, s: State, j: nat)
    requires Inv(g, s) && Enabled(g, s, Proceed(j)) && !s.main[j].Fire?
    ensures var s' := Step(g, s, Proceed(j));
            MainWork(g, s'.main[j]) < MainWork(g, s.main[j]) && IrqWork(s'.cpus[j]) == IrqWork(s.cpus[j])
  {
  }

  /** Every step but a new call lowers the work left. */
  lemma StepLowersWork(g: Config, s: State, a: Action)
    requires Inv(g, s) && Enabled(g, s, a) && !a.Invoke?
    ensures Work(g, Step(g, s, a)) < Work(g, s)
  {
    var j := a.cpu;
    if a.Proceed? {
      var s' := Step(g, s, a);
      var i := if s.main[j].Fire? then s.main[j].i else j;
      MainTotalUpdate(g, s.main, j, s'.main[j]);
      IrqTotalUpdate(s.cpus, i, s'.cpus[i]);
      assert s'.main == s.main[j := s'.main[j]] && s'.cpus == s.cpus[i := s'.cpus[i]] by {
        StepTouches(g, s, j);
      }
      if s.main[j].Fire? {
        FireLowersWork(g, s, j);
      } else {
        OtherLowersWork(g, s, j);
      }
    } else {
      HandlerLowersWork(g, s, j);
      IrqTotalUpdate(s.cpus, j, if a.Deliver? then s.cpus[j].(pend := false, irq := Enter)
                                else IrqStep(s.cpus[j], s.info));
    }
  }

  lemma StepTouches(g: Config, s: State, j: nat)
    requires Inv(g, s) && Enabled(g, s, Proceed(j))
    ensures var s' := Step(g, s, Proceed(j));
            var i := if s.main[j].Fire? then s.main[j].i else j;
            |s'.cpus| == |s.cpus| && s'.main == s.main[j := s'.main[j]] && s'.cpus == s.cpus[i := s'.cpus[i]]
  {
  }

  ghost predicate AtRest(s: State) {
    && (forall j :: 0 <= j < |s.main| ==> s.main[j].Idle?)
    && (forall t :: 0 <= t < |s.cpus| ==> Quiet(s.cpus[t]))
  }

  /** No deadlock: in a reachable state with a call made, waiting for the lock or being served, some processor can
      take a step other than making a new call. */
  lemma SomeStepEnabled(g: Config, s: State) returns (a: Action)
    requires Inv(g, s) && !AtRest(s)
    ensures Enabled(g, s, a) && !a.Invoke?
  {
    if t :| 0 <= t < g.slots && !Quiet(s.cpus[t]) {
      a := if s.cpus[t].irq.NoIrq? then Deliver(t) else Handler(t);
    } else if s.lock.Some? {
      var h := s.lock.value;
      a := Proceed(h);
      if s.main[h].WaitIn? || s.main[h].WaitOut? {
        var i := s.main[h].i;
        assert Cell(g, h, s.main[h].call, g.ncpus, i, s.cpus[i], Expected(g, s.calls[..|s.calls| - 1], i));
      }
    } else {
      var j :| 0 <= j < g.slots && !s.main[j].Idle?;
      a := Proceed(j);
    }
  }

  /** Every cross call returns: from a reachable state, with no further calls made, at most `Work` steps can be taken,
      and when none is left to take every caller has returned and no processor is interrupted. */
  lemma {:induction false} CallsReturn(g: Config, s: State, acts: seq<Action>)
    requires Inv(g, s) && Legal(g, s, acts)
    requires forall a :: a in acts ==> !a.Invoke?
    ensures |acts| <= Work(g, s)
    ensures (forall a: Action :: Enabled(g, Exec(g, s, acts), a) ==> a.Invoke?) ==> AtRest(Exec(g, s, acts))
    decreases |acts|
  {
    if acts == [] {
      if !AtRest(s) {
        var a := SomeStepEnabled(g, s);
      }
    } else {
      StepKeepsInv(g, s, acts[0]);
      StepLowersWork(g, s, acts[0]);
      CallsReturn(g, Step(g, s, acts[0]), acts[1..]);
    }
  }
}
