/** The IOMMU of a machine without cache coherence: the page table is written through the processor's cache, read by
    the IOMMU from memory, and kept in the IOMMU's TLB. Releasing a mapping flushes nothing; making one flushes the
    cache and then invalidates the TLB.
*/
module IommuHardware {
  import opened Options

  const PAGE_SIZE := 4096
  const BASE_ADDR := 0xfe00_0000
  const PTE_VALID := 8
  const WRITABLE := 7

  /** MKIOPTE: the page address shifted right by four, low byte replaced by write permission and the valid bit. */
  function MakePte(phys: nat): nat {
    phys / 16 - phys / 16 % 256 + 15
  }

  predicate IsValid(pte: nat) {
    pte / PTE_VALID % 2 == 1
  }

  function ClearValid(pte: nat): (r: nat)
    ensures !IsValid(r)
  {
    if IsValid(pte) then pte - PTE_VALID else pte
  }

  /** No other bit is touched. */
  lemma ClearsOneBit(pte: nat)
    ensures ClearValid(pte) % PTE_VALID == pte % PTE_VALID
    ensures ClearValid(pte) / (2 * PTE_VALID) == pte / (2 * PTE_VALID)
  {
    var high, low := pte / 16, pte % PTE_VALID;
    assert pte / PTE_VALID == 2 * high + pte / PTE_VALID % 2;
    assert IsValid(pte) ==> pte == 16 * high + 8 + low;
  }

  lemma MakePteEncodes(phys: nat)
    ensures IsValid(MakePte(phys)) && MakePte(phys) / 256 == phys / PAGE_SIZE
    ensures MakePte(phys) % 256 == WRITABLE + PTE_VALID
  {
    var page := phys / PAGE_SIZE;
    assert phys / 16 / 256 == page;
    assert MakePte(phys) == 256 * page + 15;
    assert MakePte(phys) / PTE_VALID == 2 * (16 * page) + 1;
  }

  /** The page table as the processor sees it, as it is in memory, and as the TLB holds it. */
  datatype Hardware = Hardware(cpu: seq<nat>, mem: seq<nat>, tlb: map<nat, nat>) {
    predicate WellFormed() {
      |cpu| == |mem|
    }

    /** What the IOMMU translates page i with. */
    function Lookup(i: nat): nat
      requires i < |mem|
    {
      if i in tlb then tlb[i] else mem[i]
    }

    /** The physical address a device access at bus address a goes to, if the page is mapped. */
    function Physical(a: nat): int
      requires a >= BASE_ADDR && (a - BASE_ADDR) / PAGE_SIZE < |mem|
    {
      var pte := Lookup((a - BASE_ADDR) / PAGE_SIZE);
      if IsValid(pte) then pte / 256 * PAGE_SIZE + a % PAGE_SIZE else -1
    }

    /** All copies of entry i that exist hold `pte`. */
    predicate Settled(i: nat, pte: nat) {
      i < |cpu| && i < |mem| && cpu[i] == pte && mem[i] == pte && (i in tlb ==> tlb[i] == pte)
    }

    function Flush(): Hardware {
      this.(mem := cpu)
    }

    function Invalidate(): Hardware {
      this.(tlb := map[])
    }
  }

  /** What happens without the driver: a cache line is written back, the TLB loads or drops an entry. */
  datatype Event = WriteBack(i: nat) | Refill(i: nat) | Evict(i: nat)

  function Happen(h: Hardware, e: Event): Hardware
    requires h.WellFormed()
  {
    if e.i >= |h.cpu| then h
    else
      match e
      case WriteBack(i) => h.(mem := h.mem[i := h.cpu[i]])
      case Refill(i) => h.(tlb := h.tlb[i := h.mem[i]])
      case Evict(i) => h.(tlb := h.tlb - {i})
  }

  /** Everything any number of such events can have done. */
  ghost predicate Disturbed(h: Hardware, h': Hardware) {
    && h.WellFormed() && h'.WellFormed() && h'.cpu == h.cpu
    && (forall i :: 0 <= i < |h.cpu| ==> h'.mem[i] == h.mem[i] || h'.mem[i] == h.cpu[i])
    && (forall i {:trigger h'.tlb[i]} :: i in h'.tlb ==>
          || (i in h.tlb && h'.tlb[i] == h.tlb[i])
          || (i < |h.cpu| && (h'.tlb[i] == h.mem[i] || h'.tlb[i] == h.cpu[i])))
  }

  lemma HappenDisturbs(h0: Hardware, h: Hardware, e: Event)
    requires Disturbed(h0, h)
    ensures Disturbed(h0, Happen(h, e))
  {
  }

  lemma SettledStays(h: Hardware, h': Hardware, i: nat, pte: nat)
    requires Disturbed(h, h') && h.Settled(i, pte)
    ensures h'.Settled(i, pte)
  {
  }

  /** A flush followed by an invalidation settles every entry, whatever happens before, between and after. */
  lemma FlushThenInvalidateSettles(h0: Hardware, h1: Hardware, h2: Hardware, h3: Hardware, i: nat)
    requires Disturbed(h0, h1) && Disturbed(h1.Flush(), h2) && Disturbed(h2.Invalidate(), h3)
    requires i < |h0.cpu|
    ensures h3.Settled(i, h0.cpu[i])
  {
    assert h2.mem == h0.cpu;
  }

  /** The other order does not do: a refill between the two keeps the old entry in the TLB. */
  lemma InvalidateThenFlushFails()
    ensures exists h: Hardware, e: Event ::
              h.WellFormed() && |h.cpu| == 1 && Happen(h.Invalidate(), e).Flush().Lookup(0) != h.cpu[0]
  {
    var h := Hardware([MakePte(PAGE_SIZE)], [0], map[]);
    assert Happen(h.Invalidate(), Refill(0)).Flush().Lookup(0) == 0;
  }

  /** Nor does the flush alone. */
  lemma FlushAloneFails()
    ensures exists h: Hardware :: h.WellFormed() && |h.cpu| == 1 && h.Flush().Lookup(0) != h.cpu[0]
  {
    var h := Hardware([MakePte(PAGE_SIZE)], [0], map[0 := 0]);
    assert h.Flush().Lookup(0) == 0;
  }

  // ---------------------------------------------------------------------------------------------------------------
  // Whole runs of the driver, one access at a time.

  /** `Idle`: no operation in progress; `Storing`: entries written, cache not yet flushed; `Flushed`: TLB not yet
      invalidated. */
  datatype Phase = Idle | Storing | Flushed

  /** `live` holds the mappings in force and `opening` those the current operation is making. `stale` is history: the
      pages released since the last map operation, and before the first one all pages. */
  datatype Driver = Driver(h: Hardware, phase: Phase, live: map<nat, nat>, opening: map<nat, nat>, stale: set<nat>)

  datatype Action = Store(i: nat, phys: nat) | FlushCache | InvalidateTlb | Release(i: nat) | Environment(e: Event)

  /** The operations are serialised: a map operation is one or more stores, the flush and the invalidation, and
      releases, of entries that are valid, come between operations. Hardware events come at any time. */
  predicate Allowed(d: Driver, a: Action) {
    match a
    case Store(i, _) => i < |d.h.cpu| && (d.phase == Idle || d.phase == Storing)
    case FlushCache => d.phase == Storing
    case InvalidateTlb => d.phase == Flushed
    case Release(i) => d.phase == Idle && i < |d.h.cpu| && IsValid(d.h.cpu[i])
    case Environment(_) => true
  }

  function Perform(d: Driver, a: Action): (r: Driver)
    requires d.h.WellFormed() && Allowed(d, a)
    ensures r.h.WellFormed()
  {
    match a
    case Store(i, phys) =>
      var pte := MakePte(phys);
      Driver(d.h.(cpu := d.h.cpu[i := pte]), Storing, d.live - {i}, d.opening[i := pte], d.stale)
    case FlushCache => d.(h := d.h.Flush(), phase := Flushed)
    case InvalidateTlb => Driver(d.h.Invalidate(), Idle, d.live + d.opening, map[], {})
    case Release(i) =>
      d.(h := d.h.(cpu := d.h.cpu[i := ClearValid(d.h.cpu[i])]), live := d.live - {i}, stale := d.stale + {i})
    case Environment(e) => d.(h := Happen(d.h, e))
  }

  ghost predicate DriverInv(d: Driver) {
    && d.h.WellFormed()
    && d.live.Keys !! d.opening.Keys
    && (d.phase == Idle ==> d.opening == map[])
    && (forall i :: i in d.live ==> d.h.Settled(i, d.live[i]))
    && (forall i :: i in d.opening ==> i < |d.h.cpu| && d.h.cpu[i] == d.opening[i])
    && (d.phase == Flushed ==> d.h.mem == d.h.cpu)
    && (forall i :: 0 <= i < |d.h.cpu| && i !in d.opening && i !in d.stale ==> d.h.Settled(i, d.h.cpu[i]))
    && (forall i :: 0 <= i < |d.h.cpu| ==> (IsValid(d.h.cpu[i]) <==> i in d.live || i in d.opening))
  }

  lemma PerformKeepsInv(d: Driver, a: Action)
    requires DriverInv(d) && Allowed(d, a)
    ensures DriverInv(Perform(d, a))
  {
    match a
    case Store(i, phys) => MakePteEncodes(phys);
    case FlushCache =>
    case InvalidateTlb =>
    case Release(i) =>
    case Environment(e) =>
  }

  ghost predicate Runs(d: Driver, acts: seq<Action>)
    requires d.h.WellFormed()
    decreases |acts|
  {
    acts != [] ==> Allowed(d, acts[0]) && Runs(Perform(d, acts[0]), acts[1..])
  }

  ghost function After(d: Driver, acts: seq<Action>): Driver
    requires d.h.WellFormed() && Runs(d, acts)
    decreases |acts|
  {
    if acts == [] then d else After(Perform(d, acts[0]), acts[1..])
  }

  lemma {:induction false} RunKeepsInv(d: Driver, acts: seq<Action>)
    requires DriverInv(d) && Runs(d, acts)
    ensures DriverInv(After(d, acts))
    decreases |acts|
  {
    if acts != [] {
      PerformKeepsInv(d, acts[0]);
      RunKeepsInv(Perform(d, acts[0]), acts[1..]);
    }
  }

  /** What the last store or release of page i in a run leaves it mapped to, if `before` is what it was mapped to before
      the run. */
  function Latest(acts: seq<Action>, i: nat, before: Option<nat>): Option<nat>
    decreases |acts|
  {
    if acts == [] then before else Latest(acts[1..], i, Now(acts[0], i, before))
  }

  function Now(a: Action, i: nat, before: Option<nat>): Option<nat> {
    match a
    case Store(k, phys) => if k == i then Some(phys) else before
    case Release(k) => if k == i then None else before
    case _ => before
  }

  /** The mapping of page i, in force or being made. */
  function Mapping(d: Driver, i: nat): Option<nat> {
    if i in d.opening then Some(d.opening[i]) else if i in d.live then Some(d.live[i]) else None
  }

  predicate Encodes(pte: Option<nat>, phys: Option<nat>) {
    match phys
    case None => pte.None?
    case Some(p) => pte == Some(MakePte(p))
  }

  lemma MappingNow(d: Driver, a: Action, i: nat, before: Option<nat>)
    requires DriverInv(d) && Allowed(d, a) && Encodes(Mapping(d, i), before)
    ensures Encodes(Mapping(Perform(d, a), i), Now(a, i, before))
  {
    match a
    case Store(k, phys) =>
    case FlushCache =>
    case InvalidateTlb =>
    case Release(k) =>
    case Environment(e) =>
  }

  lemma {:induction false} MappingsAreLatest(d: Driver, acts: seq<Action>, i: nat, before: Option<nat>)
    requires DriverInv(d) && Runs(d, acts) && Encodes(Mapping(d, i), before)
    ensures Encodes(Mapping(After(d, acts), i), Latest(acts, i, before))
    decreases |acts|
  {
    if acts != [] {
      PerformKeepsInv(d, acts[0]);
      MappingNow(d, acts[0], i, before);
      MappingsAreLatest(Perform(d, acts[0]), acts[1..], i, Now(acts[0], i, before));
    }
  }

  predicate IsPage(size: nat, i: int) {
    0 <= i < size
  }

  function AllPages(size: nat): set<nat> {
    set i | 0 <= i < size && IsPage(size, i)
  }

  /** The table as iommu40_init leaves it: cleared through the cache, with nothing said about what memory and the TLB
      hold. */
  function Cleared(mem: seq<nat>, tlb: map<nat, nat>): Driver {
    Driver(Hardware(seq(|mem|, _ => 0), mem, tlb), Idle, map[], map[], AllPages(|mem|))
  }

  /** Coherence. After any run from a cleared table, with hardware events at any moment, a page is mapped, in force or
      about to be, exactly to what was last stored for it and not released since; every mapping in force is
      what the IOMMU translates its page with and what the processor sees, also while an operation is under way;
      between operations the valid entries of the table are exactly the mappings in force; and a page not in force is
      translated then only if it was released since the last map operation, or there has been none. */
  lemma Coherence(mem: seq<nat>, tlb: map<nat, nat>, acts: seq<Action>)
    requires Runs(Cleared(mem, tlb), acts)
    ensures var d := After(Cleared(mem, tlb), acts);
            && d.h.WellFormed()
            && (forall i :: i in d.live ==>
                  i < |d.h.mem| && d.h.Lookup(i) == d.live[i] == d.h.cpu[i] && IsValid(d.live[i]))
            && (forall i: nat :: Encodes(Mapping(d, i), Latest(acts, i, None)))
            && (d.phase == Idle ==> forall i :: 0 <= i < |d.h.cpu| ==> (IsValid(d.h.cpu[i]) <==> i in d.live))
            && (d.phase == Idle ==> forall i ::
                  0 <= i < |d.h.cpu| && i !in d.live && IsValid(d.h.Lookup(i)) ==> i in d.stale)
  {
    RunKeepsInv(Cleared(mem, tlb), acts);
    forall i: nat
      ensures Encodes(Mapping(After(Cleared(mem, tlb), acts), i), Latest(acts, i, None))
    {
      MappingsAreLatest(Cleared(mem, tlb), acts, i, None);
    }
  }

  /** A released page does go on being translated: what is released is still what the IOMMU uses. */
  lemma ReleasedStillTranslates(d: Driver, i: nat)
    requires DriverInv(d) && Allowed(d, Release(i))
    ensures var r := Perform(d, Release(i));
            i !in r.live && i in r.stale && r.h.Lookup(i) == d.live[i] && IsValid(r.h.Lookup(i))
  {
  }
}
