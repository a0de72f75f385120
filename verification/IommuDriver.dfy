/** The operations of the IOMMU driver on its page table, with the hardware free to act between any two of their
    accesses. A failed ASSERT (the kernel panics) is a result without a value.
*/
module IommuDriver {
  import opened IommuHardware

  import opened Options

  function PageOf(a: nat): nat
    requires a >= BASE_ADDR
  {
    (a - BASE_ADDR) / PAGE_SIZE
  }

  function AddressOf(page: nat, offset: nat): nat {
    BASE_ADDR + page * PAGE_SIZE + offset
  }

  lemma AddressSplits(page: nat, offset: nat)
    requires offset < PAGE_SIZE
    ensures PageOf(AddressOf(page, offset)) == page && AddressOf(page, offset) % PAGE_SIZE == offset
  {
  }

  /** One element of a scatter list; `phys` is what the processor's MMU translates `addr` to. */
  datatype SgEntry = SgEntry(addr: nat, phys: nat, len: nat, dvma: nat)

  /** The lowest page of the region that is not mapped, or its end. */
  function FirstFree(lo: nat, hi: nat, live: map<nat, nat>): (p: nat)
    requires lo <= hi
    ensures lo <= p <= hi && (p < hi ==> p !in live)
    ensures forall i :: lo <= i < p ==> i in live
    decreases hi - lo
  {
    if lo == hi || lo !in live then lo else FirstFree(lo + 1, hi, live)
  }

  /** The mappings after placing list elements, and the pages given to those elements. */
  datatype Placed = Placed(live: map<nat, nat>, pages: seq<nat>)

  /** Elements k.. of a list placed from the last one down, each on the lowest free page; nothing if one of them is
      longer than a page or finds no page. */
  function PlaceFrom(lo: nat, hi: nat, live: map<nat, nat>, sg: seq<SgEntry>, k: nat): (r: Option<Placed>)
    requires lo <= hi && k <= |sg|
    ensures r.Some? ==> |r.value.pages| == |sg| - k
    decreases |sg| - k
  {
    if k == |sg| then Some(Placed(live, []))
    else
      match PlaceFrom(lo, hi, live, sg, k + 1)
      case None => None
      case Some(pl) =>
        var p := FirstFree(lo, hi, pl.live);
        if sg[k].len > PAGE_SIZE || p == hi then None
        else Some(Placed(pl.live[p := sg[k].phys], [p] + pl.pages))
  }

  /** The pages of the region that are not mapped. */
  function FreePages(lo: nat, hi: nat, live: map<nat, nat>): set<nat> {
    set p: nat | lo <= p < hi && p !in live
  }

  /** Elements k.. of the list can all be placed: none is longer than a page, though it may be as long, and there are
      as many free pages. */
  predicate Placeable(lo: nat, hi: nat, live: map<nat, nat>, sg: seq<SgEntry>, k: nat) {
    && (forall j :: k <= j < |sg| ==> sg[j].len <= PAGE_SIZE)
    && |sg| - k <= |FreePages(lo, hi, live)|
  }

  lemma {:induction false} PlacedExactly(lo: nat, hi: nat, live: map<nat, nat>, sg: seq<SgEntry>, k: nat)
    requires lo <= hi && k <= |sg|
    ensures PlaceFrom(lo, hi, live, sg, k).Some? <==> Placeable(lo, hi, live, sg, k)
    ensures var r := PlaceFrom(lo, hi, live, sg, k);
            r.Some? ==> |FreePages(lo, hi, r.value.live)| == |FreePages(lo, hi, live)| - (|sg| - k)
    decreases |sg| - k
  {
    if k < |sg| {
      PlacedExactly(lo, hi, live, sg, k + 1);
      if PlaceFrom(lo, hi, live, sg, k + 1).Some? {
        var q := PlaceFrom(lo, hi, live, sg, k + 1).value;
        var p := FirstFree(lo, hi, q.live);
        if p == hi {
          assert FreePages(lo, hi, q.live) == {};
        } else {
          assert FreePages(lo, hi, q.live[p := sg[k].phys]) == FreePages(lo, hi, q.live) - {p};
          assert p in FreePages(lo, hi, q.live);
        }
      }
    }
  }

  /** Elements k.. of the list lie on pages of the region that were free; each element's page is mapped to its buffer,
      and nothing else changes. */
  ghost predicate OnFreePages(lo: nat, hi: nat, live: map<nat, nat>, sg: seq<SgEntry>, k: nat, pl: Placed) {
    && k + |pl.pages| == |sg|
    && (forall p :: p in pl.pages ==> lo <= p < hi && p !in live)
    && (forall j :: 0 <= j < |pl.pages| ==> pl.pages[j] in pl.live && pl.live[pl.pages[j]] == sg[k + j].phys)
    && (forall i :: i in pl.live <==> i in live || i in pl.pages)
    && (forall i :: i in live ==> pl.live[i] == live[i])
  }

  lemma OneMorePage(lo: nat, hi: nat, live: map<nat, nat>, sg: seq<SgEntry>, k: nat, q: Placed, p: nat)
    requires k < |sg| && OnFreePages(lo, hi, live, sg, k + 1, q)
    requires lo <= p < hi && p !in q.live
    ensures OnFreePages(lo, hi, live, sg, k, Placed(q.live[p := sg[k].phys], [p] + q.pages))
  {
    var pages, mapped := [p] + q.pages, q.live[p := sg[k].phys];
    assert forall i :: i in pages <==> i == p || i in q.pages;
    forall j | 0 <= j < |pages|
      ensures pages[j] in mapped && mapped[pages[j]] == sg[k + j].phys
    {
      if j > 0 {
        assert pages[j] == q.pages[j - 1] && q.pages[j - 1] in q.live;
      }
    }
  }

  lemma {:induction false} PlacedPages(lo: nat, hi: nat, live: map<nat, nat>, sg: seq<SgEntry>, k: nat)
    requires lo <= hi && k <= |sg| && PlaceFrom(lo, hi, live, sg, k).Some?
    ensures OnFreePages(lo, hi, live, sg, k, PlaceFrom(lo, hi, live, sg, k).value)
    decreases |sg| - k
  {
    if k < |sg| {
      PlacedPages(lo, hi, live, sg, k + 1);
      var q := PlaceFrom(lo, hi, live, sg, k + 1).value;
      OneMorePage(lo, hi, live, sg, k, q, FirstFree(lo, hi, q.live));
    }
  }

  /** Each page lower than the one before it, and no page of the region below one of them free. */
  ghost predicate Packed(lo: nat, pl: Placed) {
    && (forall i, j :: 0 <= i < j < |pl.pages| ==> pl.pages[j] < pl.pages[i])
    && (forall i, j :: 0 <= j < |pl.pages| && lo <= i < pl.pages[j] ==> i in pl.live)
  }

  lemma PackedMore(lo: nat, q: Placed, p: nat, phys: nat)
    requires Packed(lo, q) && lo <= p && p !in q.live
    requires forall i :: lo <= i < p ==> i in q.live
    requires forall j :: 0 <= j < |q.pages| ==> lo <= q.pages[j] && q.pages[j] in q.live
    ensures Packed(lo, Placed(q.live[p := phys], [p] + q.pages))
  {
    forall j | 0 <= j < |q.pages|
      ensures q.pages[j] < p
    {
      assert q.pages[j] in q.live;
      assert lo <= p < q.pages[j] ==> p in q.live;
    }
  }

  /** Every element has a page of its own, lower for later elements, and no page below one of them is left free. */
  lemma {:induction false} PlacedApart(lo: nat, hi: nat, live: map<nat, nat>, sg: seq<SgEntry>, k: nat)
    requires lo <= hi && k <= |sg| && PlaceFrom(lo, hi, live, sg, k).Some?
    ensures Packed(lo, PlaceFrom(lo, hi, live, sg, k).value)
    decreases |sg| - k
  {
    if k < |sg| {
      PlacedApart(lo, hi, live, sg, k + 1);
      PlacedPages(lo, hi, live, sg, k + 1);
      var q := PlaceFrom(lo, hi, live, sg, k + 1).value;
      assert forall j :: 0 <= j < |q.pages| ==> q.pages[j] in q.pages;
      PackedMore(lo, q, FirstFree(lo, hi, q.live), sg[k].phys);
    }
  }

  /** The processor's table holds exactly the mappings of `cur`. */
  ghost predicate Holds(table: seq<nat>, cur: map<nat, nat>) {
    && (forall i :: i in cur ==> i < |table| && table[i] == MakePte(cur[i]))
    && (forall i :: 0 <= i < |table| && i !in cur ==> !IsValid(table[i]))
  }

  lemma StoreHolds(table: seq<nat>, cur: map<nat, nat>, p: nat, phys: nat)
    requires Holds(table, cur) && p < |table|
    ensures Holds(table[p := MakePte(phys)], cur[p := phys])
  {
  }

  lemma ClearHolds(table: seq<nat>, cur: map<nat, nat>, p: nat)
    requires Holds(table, cur) && p < |table|
    ensures Holds(table[p := ClearValid(table[p])], cur - {p})
  {
  }

  lemma ValidMeansHeld(table: seq<nat>, cur: map<nat, nat>, p: nat)
    requires Holds(table, cur) && p < |table|
    ensures IsValid(table[p]) <==> p in cur
  {
    if p in cur {
      MakePteEncodes(cur[p]);
    }
  }

  /** The list once elements k.. have been given these pages, at the offsets of their buffers. */
  function Addressed(sg: seq<SgEntry>, k: nat, pages: seq<nat>): (r: seq<SgEntry>)
    requires k + |pages| == |sg|
    ensures |r| == |sg| && r[..k] == sg[..k]
    ensures forall j :: k <= j < |sg| ==> r[j].dvma >= BASE_ADDR && PageOf(r[j].dvma) == pages[j - k]
    ensures forall j :: k <= j < |sg| ==> r[j].dvma % PAGE_SIZE == sg[j].addr % PAGE_SIZE
    ensures forall j :: k <= j < |sg| ==> r[j] == sg[j].(dvma := r[j].dvma)
  {
    seq(|sg|, j requires 0 <= j < |sg| =>
      if j < k then sg[j] else sg[j].(dvma := AddressOf(pages[j - k], sg[j].addr % PAGE_SIZE)))
  }

  lemma AddressedNext(sg: seq<SgEntry>, k: nat, pages: seq<nat>, p: nat, rest: seq<SgEntry>)
    requires 0 < k && k + |pages| == |sg|
    ensures (Addressed(sg, k, pages) + rest)[k - 1] == sg[k - 1]
    ensures Addressed(sg, k - 1, [p] + pages) + rest ==
            (Addressed(sg, k, pages) + rest)[k - 1 := sg[k - 1].(dvma := AddressOf(p, sg[k - 1].addr % PAGE_SIZE))]
  {
  }

  /** Consecutive pages mapped to the given physical pages. */
  function MapRange(live: map<nat, nat>, first: nat, phys: seq<nat>): map<nat, nat> {
    if phys == [] then live
    else MapRange(live, first, phys[..|phys| - 1])[first + |phys| - 1 := phys[|phys| - 1]]
  }

  class Iommu {
    const pages: nat
    const scsiLo: nat
    const scsiHi: nat
    const dvmaLo: nat
    const dvmaHi: nat
    const table: array<nat>
    const memory: array<nat>
    var tlb: map<nat, nat>
    ghost var live: map<nat, nat>
    ghost var stale: set<nat>

    ghost function Hw(): Hardware
      reads this, table, memory
    {
      Hardware(table[..], memory[..], tlb)
    }

    ghost predicate Shape() {
      && table.Length == memory.Length == pages && table != memory
      && scsiLo <= scsiHi <= dvmaLo <= dvmaHi <= pages
    }

    /** Every copy of an entry agrees, but for the pages released since the last map operation. */
    ghost predicate SettledBut(except: set<nat>)
      requires Shape()
      reads this, table, memory
    {
      forall i :: 0 <= i < pages && i !in except ==> Hw().Settled(i, table[i])
    }

    /** Between operations: the table holds exactly the mappings in force (`live`, from page to physical page), and
        every copy of their entries agrees. */
    ghost predicate Valid()
      reads this, table, memory
    {
      && Shape()
      && Holds(table[..], live)
      && live.Keys !! stale
      && SettledBut(stale)
    }

    /** The driver as the coherence argument sees it, no operation being under way. */
    ghost function AsDriver(): Driver
      reads this, table, memory
    {
      Driver(Hw(), Idle, map i | i in live :: MakePte(live[i]), map[], stale)
    }

    /** In every state between operations the coherence invariant holds, so whatever follows keeps it. */
    lemma Coherent()
      requires Valid()
      ensures DriverInv(AsDriver())
    {
      forall i | 0 <= i < pages
        ensures IsValid(table[i]) <==> i in live
      {
        ValidMeansHeld(table[..], live, i);
      }
    }

    /** Whatever the hardware did, the IOMMU translates every page in force as it was mapped. */
    lemma Translates(p: nat)
      requires Valid() && p in live
      ensures p < pages && Hw().Lookup(p) == MakePte(live[p])
    {
    }

    /** In every state between operations a device reaches each byte of a mapped buffer that ends within its page. */
    lemma StaysReached(page: nat, len: nat)
      requires Valid() && page in live && live[page] % PAGE_SIZE + len <= PAGE_SIZE
      ensures forall k :: 0 <= k < len ==> Reaches(Hw(), AddressOf(page, live[page] % PAGE_SIZE), live[page], k)
    {
      MakePteEncodes(live[page]);
      forall k | 0 <= k < len
        ensures Reaches(Hw(), AddressOf(page, live[page] % PAGE_SIZE), live[page], k)
      {
        AddressSplits(page, live[page] % PAGE_SIZE + k);
      }
    }

    /** The table is allocated and cleared by iommu40_init, through the cache: `mem` and `tlb` are what memory and the
        TLB happen to hold. SCSI buffers are mapped in the lower region and other DMA areas in the upper. */
    constructor (scsiLo: nat, scsiHi: nat, dvmaLo: nat, dvmaHi: nat, mem: seq<nat>, tlb: map<nat, nat>)
      requires scsiLo <= scsiHi <= dvmaLo <= dvmaHi <= |mem|
      ensures Valid() && live == map[] && stale == AllPages(|mem|) && fresh(table) && fresh(memory)
      ensures pages == |mem| && memory[..] == mem && this.tlb == tlb
      ensures this.scsiLo == scsiLo && this.scsiHi == scsiHi && this.dvmaLo == dvmaLo && this.dvmaHi == dvmaHi
    {
      pages := |mem|;
      this.scsiLo, this.scsiHi, this.dvmaLo, this.dvmaHi := scsiLo, scsiHi, dvmaLo, dvmaHi;
      table := new nat[|mem|](_ => 0);
      memory := new nat[|mem|](i requires 0 <= i < |mem| => mem[i]);
      this.tlb, live, stale := tlb, map[], AllPages(|mem|);
    }

    /** Any number of hardware events. */
    method Environment()
      requires Shape()
      modifies memory, this`tlb
      ensures Disturbed(old(Hw()), Hw())
    {
      ghost var h := Hw();
      var more: bool := *;
      var fuel: nat := *;
      while more && fuel > 0
        invariant Disturbed(h, Hw())
        decreases fuel
      {
        var i: int := *;
        ghost var now := Hw();
        ghost var e := Evict(pages);
        if 0 <= i < pages {
          if
          case true =>
            memory[i] := table[i];
            e := WriteBack(i);
          case true =>
            tlb := tlb[i := memory[i]];
            e := Refill(i);
          case true =>
            tlb := tlb - {i};
            e := Evict(i);
        }
        HappenDisturbs(h, now, e);
        assert Hw() == Happen(now, e);
        more := *;
        fuel := fuel - 1;
      }
    }

    /** flush_cache_all followed by iommu40_invalidate: afterwards every entry is settled. */
    method Commit()
      requires Shape()
      modifies memory, this`tlb
      ensures forall i :: 0 <= i < pages ==> Hw().Settled(i, table[i])
    {
      ghost var h0 := Hw();
      Environment();
      ghost var h1 := Hw();
      forall i | 0 <= i < pages {
        memory[i] := table[i];
      }
      assert memory[..] == table[..];
      assert Hw() == h1.Flush();
      Environment();
      ghost var h2 := Hw();
      tlb := map[];
      Environment();
      forall i | 0 <= i < pages
        ensures Hw().Settled(i, table[i])
      {
        FlushThenInvalidateSettles(h0, h1, h2, Hw(), i);
      }
    }

    /** iommu40_get_area: the lowest free page of the region is taken, or the machine panics. */
    method GetArea(vaddr: nat, phys: nat, len: nat, ghost cur: map<nat, nat>) returns (r: Option<nat>)
      requires Shape() && Holds(table[..], cur)
      modifies table, memory, this`tlb
      ensures var p := FirstFree(scsiLo, scsiHi, cur);
              if len > PAGE_SIZE || p == scsiHi then r.None? && Disturbed(old(Hw()), Hw())
              else r == Some(AddressOf(p, vaddr % PAGE_SIZE))
                   && table[..] == old(table[..])[p := MakePte(phys)] && Holds(table[..], cur[p := phys])
    {
      assert Disturbed(Hw(), Hw());
      if len > PAGE_SIZE {
        return None;
      }
      var p := scsiLo;
      while p < scsiHi && IsValid(table[p])
        modifies {}
        invariant scsiLo <= p <= scsiHi
        invariant FirstFree(p, scsiHi, cur) == FirstFree(scsiLo, scsiHi, cur)
      {
        ValidMeansHeld(table[..], cur, p);
        p := p + 1;
      }
      Environment();
      if p == scsiHi {
        return None;
      }
      ValidMeansHeld(table[..], cur, p);
      StoreHolds(table[..], cur, p, phys);
      table[p] := MakePte(phys);
      r := Some(AddressOf(p, vaddr % PAGE_SIZE));
    }

    /** iommu40_get_scsi_one: the lowest free page of the region is mapped to the buffer's. A device then reaches all
        bytes of the buffer exactly when it ends within its page or the next page was already mapped to go on. */
    method GetScsiOne(vaddr: nat, phys: nat, len: nat) returns (r: Option<nat>)
      requires Valid()
      modifies this`tlb, this`live, this`stale, table, memory
      ensures Valid()
      ensures var p := FirstFree(scsiLo, scsiHi, old(live));
              if len > PAGE_SIZE || p == scsiHi then r.None? && live == old(live) && stale == old(stale)
              else r == Some(AddressOf(p, vaddr % PAGE_SIZE)) && live == old(live)[p := phys] && stale == {}
      ensures r.Some? && phys % PAGE_SIZE == vaddr % PAGE_SIZE ==>
                ((forall k :: 0 <= k < len ==> Reaches(Hw(), r.value, phys, k)) <==>
                 vaddr % PAGE_SIZE + len <= PAGE_SIZE
                 || Continues(old(live), FirstFree(scsiLo, scsiHi, old(live)), phys))
    {
      ghost var h, p, before := Hw(), FirstFree(scsiLo, scsiHi, live), live;
      r := GetArea(vaddr, phys, len, live);
      if r.Some? {
        Commit();
        live, stale := live[p := phys], {};
        if phys % PAGE_SIZE == vaddr % PAGE_SIZE {
          BytesReached(Hw(), live, p, vaddr, phys, len);
          assert Continues(live, p, phys) <==> Continues(before, p, phys);
        }
      } else {
        StillSettled(h);
      }
    }

    /** One round of the loop of iommu40_get_scsi_sgl. */
    method PlaceElement(sg: array<SgEntry>, k: nat, ghost cur: map<nat, nat>) returns (fits: bool)
      requires Shape() && Holds(table[..], cur) && k < sg.Length
      modifies table, memory, this`tlb, sg
      ensures var p, e := FirstFree(scsiLo, scsiHi, cur), old(sg[k]);
              && fits == (e.len <= PAGE_SIZE && p != scsiHi)
              && (fits ==>
                    && Holds(table[..], cur[p := e.phys])
                    && sg[..] == old(sg[..])[k := e.(dvma := AddressOf(p, e.addr % PAGE_SIZE))])
    {
      var r := GetArea(sg[k].addr, sg[k].phys, sg[k].len, cur);
      fits := r.Some?;
      if fits {
        sg[k] := sg[k].(dvma := r.value);
      }
    }

    /** The loop of iommu40_get_scsi_sgl over the first n elements. */
    method PlaceList(sg: array<SgEntry>, n: nat) returns (ok: bool, ghost placed: Placed)
      requires Valid() && n <= sg.Length
      modifies this`tlb, table, memory, sg
      ensures ok <==> PlaceFrom(scsiLo, scsiHi, live, old(sg[..n]), 0).Some?
      ensures ok <==> Placeable(scsiLo, scsiHi, live, old(sg[..n]), 0)
      ensures ok ==>
                && placed == PlaceFrom(scsiLo, scsiHi, live, old(sg[..n]), 0).value
                && Holds(table[..], placed.live)
                && sg[..] == Addressed(old(sg[..n]), 0, placed.pages) + old(sg[n..])
    {
      ghost var list, rest := sg[..n], sg[n..];
      var k := n;
      ok, placed := true, Placed(live, []);
      assert Addressed(list, n, []) == list && sg[..] == list + rest;
      while k > 0
        invariant k <= n && Shape()
        invariant PlaceFrom(scsiLo, scsiHi, live, list, k) == Some(placed)
        invariant Holds(table[..], placed.live)
        invariant sg[..] == Addressed(list, k, placed.pages) + rest
      {
        ghost var p := FirstFree(scsiLo, scsiHi, placed.live);
        AddressedNext(list, k, placed.pages, p, rest);
        assert sg[k - 1] == sg[..][k - 1];
        var fits := PlaceElement(sg, k - 1, placed.live);
        if !fits {
          PlaceFails(scsiLo, scsiHi, live, list, k - 1);
          PlacedExactly(scsiLo, scsiHi, live, list, 0);
          return false, placed;
        }
        placed := Placed(placed.live[p := list[k - 1].phys], [p] + placed.pages);
        k := k - 1;
      }
      PlacedExactly(scsiLo, scsiHi, live, list, 0);
    }

    /** iommu40_get_scsi_sgl: elements 0..sz, `sz` included, from the last one down. Each is then mapped by the address
        written into it, and nothing else of it is changed. When it panics half way nothing more is said. */
    method GetScsiSgl(sg: array<SgEntry>, sz: int) returns (ok: bool)
      requires Valid() && sz < sg.Length
      modifies this`tlb, this`live, this`stale, table, memory, sg
      ensures var n := if sz < 0 then 0 else sz + 1;
              var placed := PlaceFrom(scsiLo, scsiHi, old(live), old(sg[..n]), 0);
              && (ok <==> placed.Some?)
              && (ok <==> Placeable(scsiLo, scsiHi, old(live), old(sg[..n]), 0))
              && (ok ==>
                    && Valid() && live == placed.value.live && stale == {}
                    && (forall j :: 0 <= j < n ==> Mapped(Hw(), live, old(sg[j]), sg[j]))
                    && sg[..n] == Addressed(old(sg[..n]), 0, placed.value.pages)
                    && sg[n..] == old(sg[n..]))
    {
      var n := if sz < 0 then 0 else sz + 1;
      ghost var placed;
      ok, placed := PlaceList(sg, n);
      if ok {
        Commit();
        AllMapped(Hw(), scsiLo, scsiHi, live, sg[..n], old(sg[..n]), placed);
        live, stale := placed.live, {};
        assert sg[..n] == sg[..][..n] && sg[n..] == sg[..][n..];
      }
    }

    /** iommu40_release_scsi_one: only the valid bit is cleared, and nothing is flushed. Panics on a page that is not
        mapped. */
    method ReleaseScsiOne(vaddr: nat) returns (ok: bool)
      requires Valid() && vaddr >= BASE_ADDR && PageOf(vaddr) < pages
      modifies this`tlb, this`live, this`stale, table, memory
      ensures Valid()
      ensures ok <==> PageOf(vaddr) in old(live)
      ensures live == if ok then old(live) - {PageOf(vaddr)} else old(live)
      ensures stale == if ok then old(stale) + {PageOf(vaddr)} else old(stale)
    {
      var p := PageOf(vaddr);
      ValidMeansHeld(table[..], live, p);
      ghost var h := Hw();
      Environment();
      StillSettled(h);
      ok := IsValid(table[p]);
      if ok {
        ClearHolds(table[..], live, p);
        table[p] := ClearValid(table[p]);
        live, stale := live - {p}, stale + {p};
      }
    }

    lemma StillSettled(h: Hardware)
      requires Shape() && Disturbed(h, Hw())
      requires forall i :: 0 <= i < pages && i !in stale ==> h.Settled(i, table[i])
      ensures SettledBut(stale)
    {
      forall i | 0 <= i < pages && i !in stale
        ensures Hw().Settled(i, table[i])
      {
        SettledStays(h, Hw(), i, table[i]);
      }
    }

    /** iommu40_release_scsi_sgl: elements 0..sz, `sz` included, from the last one down. */
    method ReleaseScsiSgl(sg: array<SgEntry>, sz: int) returns (ok: bool)
      requires Valid() && sz < sg.Length
      requires forall j :: 0 <= j <= sz ==> sg[j].dvma >= BASE_ADDR && PageOf(sg[j].dvma) < pages
      modifies this`tlb, this`live, this`stale, table, memory
      ensures Valid()
      ensures var left := ReleaseFrom(old(live), ListPages(sg[..if sz < 0 then 0 else sz + 1]), 0);
              (ok <==> left.Some?) && (ok ==> live == left.value)
    {
      var n := if sz < 0 then 0 else sz + 1;
      ghost var list := ListPages(sg[..n]);
      ghost var start := live;
      var k := n;
      while k > 0
        modifies this`tlb, this`live, this`stale, table, memory
        invariant 0 <= k <= n && Valid()
        invariant ReleaseFrom(start, list, k) == Some(live)
      {
        k := k - 1;
        assert sg[..n][k] == sg[k];
        ok := ReleaseScsiOne(sg[k].dvma);
        if !ok {
          ReleaseFails(start, list, k);
          return;
        }
      }
      ok := true;
    }

    /** One round of the loop of iommu40_map_dma_area. */
    method StorePage(page: nat, phys: nat, ghost cur: map<nat, nat>)
      requires Shape() && Holds(table[..], cur) && page < pages
      modifies this`tlb, table, memory
      ensures Holds(table[..], cur[page := phys])
    {
      Environment();
      StoreHolds(table[..], cur, page, phys);
      table[page] := MakePte(phys);
    }

    /** iommu40_map_dma_area: pages from `iovaddr` to the end of the last page of the area, which its callers take from
        the upper region, are mapped to fresh physical pages; the lower region is left alone. Panics if there are too
        few of these, and then nothing more is said. */
    method MapDmaArea(iovaddr: nat, len: nat, freePages: seq<nat>) returns (ok: bool)
      requires Valid() && BASE_ADDR <= iovaddr
      requires dvmaLo <= PageOf(iovaddr) && PageOf(iovaddr) + AreaPages(iovaddr, len) <= dvmaHi
      modifies this`tlb, this`live, this`stale, table, memory
      ensures ok <==> AreaPages(iovaddr, len) <= |freePages|
      ensures ok ==> Valid() && stale == {}
                     && live == MapRange(old(live), PageOf(iovaddr), freePages[..AreaPages(iovaddr, len)])
      ensures ok ==> forall p :: 0 <= p < scsiHi ==>
                (p in live <==> p in old(live)) && (p in live ==> live[p] == old(live)[p])
    {
      ghost var cur;
      ok, cur := StoreArea(iovaddr, len, freePages);
      if ok {
        Commit();
        MapRangeMaps(live, PageOf(iovaddr), freePages[..AreaPages(iovaddr, len)]);
        live, stale := cur, {};
      }
    }

    /** The loop of iommu40_map_dma_area. */
    method StoreArea(iovaddr: nat, len: nat, freePages: seq<nat>) returns (ok: bool, ghost cur: map<nat, nat>)
      requires Valid() && BASE_ADDR <= iovaddr && PageOf(iovaddr) + AreaPages(iovaddr, len) <= pages
      modifies this`tlb, table, memory
      ensures ok <==> AreaPages(iovaddr, len) <= |freePages|
      ensures ok ==> cur == MapRange(live, PageOf(iovaddr), freePages[..AreaPages(iovaddr, len)])
      ensures Holds(table[..], cur)
    {
      var first := PageOf(iovaddr);
      var end := PageAlign(iovaddr + len);
      cur := live;
      var a, count := iovaddr, 0;
      AreaSteps(iovaddr, len, count);
      while a < end
        invariant a == iovaddr + count * PAGE_SIZE
        invariant a < end <==> count < AreaPages(iovaddr, len)
        invariant count <= AreaPages(iovaddr, len) && count <= |freePages|
        invariant Holds(table[..], cur) && cur == MapRange(live, first, freePages[..count])
        decreases AreaPages(iovaddr, len) - count
      {
        if count == |freePages| {
          return false, cur;
        }
        StorePage(first + count, freePages[count], cur);
        MapRangeNext(live, first, freePages, count);
        cur := cur[first + count := freePages[count]];
        a, count := a + PAGE_SIZE, count + 1;
        AreaSteps(iovaddr, len, count);
      }
      ok := true;
    }

    /** A list mapped, other users' single mappings made and released, and the list released: what is left is what the
        others' operations alone would have left. */
    method MapListAndRelease(sg: array<SgEntry>, sz: int, calls: seq<Call>) returns (mapped: bool, released: bool)
      requires Valid() && 0 <= sz < sg.Length
      requires forall i :: 0 <= i < |calls| && calls[i].ReleaseOne? ==>
                 calls[i].vaddr >= BASE_ADDR && PageOf(calls[i].vaddr) < pages
      modifies this`tlb, this`live, this`stale, table, memory, sg
      ensures var placed := PlaceFrom(scsiLo, scsiHi, old(live), old(sg[..sz + 1]), 0);
              && (mapped <==> placed.Some?)
              && (mapped ==>
                    && released && Valid()
                    && live == Others(old(live), Effects(scsiLo, scsiHi, placed.value.live,
                                                         SetOf(placed.value.pages), calls)))
    {
      ghost var list, start := sg[..sz + 1], live;
      released := false;
      mapped := GetScsiSgl(sg, sz);
      if !mapped {
        return;
      }
      ghost var placed := PlaceFrom(scsiLo, scsiHi, start, list, 0).value;
      PlacedPages(scsiLo, scsiHi, start, list, 0);
      AddressesLeadBack(list, placed.pages);
      var mine := SetOf(ListPages(sg[..sz + 1]));
      RunCalls(calls, mine);
      EffectsKeepOff(scsiLo, scsiHi, placed.live, mine, calls);
      MapThenRelease(scsiLo, scsiHi, start, list, Effects(scsiLo, scsiHi, placed.live, mine, calls));
      forall j | 0 <= j <= sz
        ensures sg[j].dvma >= BASE_ADDR && PageOf(sg[j].dvma) < pages
      {
        assert sg[j] == sg[..sz + 1][j] && placed.pages[j] in placed.pages;
      }
      released := ReleaseScsiSgl(sg, sz);
    }

    /** What the other users do, none of them releasing a page of the list. */
    method RunCalls(calls: seq<Call>, mine: set<nat>)
      requires Valid()
      requires forall i :: 0 <= i < |calls| && calls[i].ReleaseOne? ==>
                 calls[i].vaddr >= BASE_ADDR && PageOf(calls[i].vaddr) < pages
      modifies this`tlb, this`live, this`stale, table, memory
      ensures Valid() && live == Others(old(live), Effects(scsiLo, scsiHi, old(live), mine, calls))
      decreases |calls|
    {
      if calls == [] {
        return;
      }
      match calls[0] {
        case GetOne(vaddr, phys, len) =>
          var _ := GetScsiOne(vaddr, phys, len);
        case ReleaseOne(vaddr) =>
          if PageOf(vaddr) !in mine {
            var _ := ReleaseScsiOne(vaddr);
          }
      }
      RunCalls(calls[1..], mine);
    }
  }

  lemma {:induction false} PlaceFails(lo: nat, hi: nat, live: map<nat, nat>, sg: seq<SgEntry>, k: nat)
    requires lo <= hi && k <= |sg| && PlaceFrom(lo, hi, live, sg, k).None?
    ensures PlaceFrom(lo, hi, live, sg, 0).None?
  {
    if k > 0 {
      PlaceFails(lo, hi, live, sg, k - 1);
    }
  }

  function PageAlign(a: nat): nat {
    (a + PAGE_SIZE - 1) / PAGE_SIZE * PAGE_SIZE
  }

  /** How many times the loop of iommu40_map_dma_area goes round. */
  function AreaPages(iovaddr: nat, len: nat): nat
    requires iovaddr >= BASE_ADDR
  {
    if PageAlign(iovaddr + len) <= iovaddr then 0
    else (PageAlign(iovaddr + len) - iovaddr + PAGE_SIZE - 1) / PAGE_SIZE
  }

  lemma AreaSteps(iovaddr: nat, len: nat, count: nat)
    requires iovaddr >= BASE_ADDR
    ensures iovaddr + count * PAGE_SIZE < PageAlign(iovaddr + len) <==> count < AreaPages(iovaddr, len)
  {
  }

  /** The area's pages are exactly those holding one of its bytes. */
  lemma AreaCovered(iovaddr: nat, len: nat, a: nat)
    requires iovaddr >= BASE_ADDR && a >= BASE_ADDR
    ensures PageOf(iovaddr) <= PageOf(a) < PageOf(iovaddr) + AreaPages(iovaddr, len) <==>
            iovaddr / PAGE_SIZE <= a / PAGE_SIZE && a / PAGE_SIZE * PAGE_SIZE < iovaddr + len
  {
    var first, last := iovaddr / PAGE_SIZE, (iovaddr + len + PAGE_SIZE - 1) / PAGE_SIZE;
    assert PageOf(iovaddr) == first - BASE_ADDR / PAGE_SIZE && PageOf(a) == a / PAGE_SIZE - BASE_ADDR / PAGE_SIZE;
    assert PageAlign(iovaddr + len) == last * PAGE_SIZE;
    assert AreaPages(iovaddr, len) == if last <= first then 0 else last - first;
    assert a / PAGE_SIZE < last <==> a / PAGE_SIZE * PAGE_SIZE < iovaddr + len;
  }

  lemma MapRangeNext(live: map<nat, nat>, first: nat, phys: seq<nat>, n: nat)
    requires n < |phys|
    ensures MapRange(live, first, phys[..n + 1]) == MapRange(live, first, phys[..n])[first + n := phys[n]]
  {
    assert phys[..n + 1][..n] == phys[..n];
  }

  lemma {:induction false} MapRangeMaps(live: map<nat, nat>, first: nat, phys: seq<nat>)
    ensures var r := MapRange(live, first, phys);
            && (forall i :: i in r <==> i in live || first <= i < first + |phys|)
            && (forall j :: 0 <= j < |phys| ==> first + j in r && r[first + j] == phys[j])
            && (forall i :: i in live && !(first <= i < first + |phys|) ==> i in r && r[i] == live[i])
    decreases |phys|
  {
    if phys != [] {
      MapRangeMaps(live, first, phys[..|phys| - 1]);
    }
  }

  // ---------------------------------------------------------------------------------------------------------------
  // Releasing.

  function ListPages(sg: seq<SgEntry>): (r: seq<nat>)
    requires forall j :: 0 <= j < |sg| ==> sg[j].dvma >= BASE_ADDR
    ensures |r| == |sg|
  {
    seq(|sg|, j requires 0 <= j < |sg| => PageOf(sg[j].dvma))
  }

  /** Releasing elements k.. from the last one down; nothing if one of them is not mapped when its turn comes. */
  function ReleaseFrom(live: map<nat, nat>, pages: seq<nat>, k: nat): Option<map<nat, nat>>
    requires k <= |pages|
    decreases |pages| - k
  {
    if k == |pages| then Some(live)
    else
      match ReleaseFrom(live, pages, k + 1)
      case None => None
      case Some(l) => if pages[k] in l then Some(l - {pages[k]}) else None
  }

  lemma {:induction false} ReleaseFails(live: map<nat, nat>, pages: seq<nat>, k: nat)
    requires k <= |pages| && ReleaseFrom(live, pages, k).None?
    ensures ReleaseFrom(live, pages, 0).None?
  {
    if k > 0 {
      ReleaseFails(live, pages, k - 1);
    }
  }

  function SetOf(pages: seq<nat>): set<nat> {
    set p | p in pages
  }

  /** Releasing mapped pages that are all different removes just them; a page named twice makes it panic. */
  lemma {:induction false} ReleasedAll(live: map<nat, nat>, pages: seq<nat>, k: nat)
    requires k <= |pages|
    ensures (forall j :: k <= j < |pages| ==> pages[j] in live) &&
            (forall i, j :: k <= i < j < |pages| ==> pages[i] != pages[j]) <==>
            ReleaseFrom(live, pages, k).Some?
    ensures ReleaseFrom(live, pages, k).Some? ==>
              ReleaseFrom(live, pages, k).value == live - SetOf(pages[k..])
    decreases |pages| - k
  {
    if k < |pages| {
      ReleasedAll(live, pages, k + 1);
      assert pages[k..] == [pages[k]] + pages[k + 1..];
      assert SetOf(pages[k..]) == {pages[k]} + SetOf(pages[k + 1..]);
    }
  }

  /** What other users of the driver do in between: map a page that is free or release one of theirs. */
  datatype Other = Take(page: nat, phys: nat) | Drop(page: nat)

  predicate OthersKeepOff(live: map<nat, nat>, mine: set<nat>, ops: seq<Other>)
    decreases |ops|
  {
    ops == [] ||
    match ops[0]
    case Take(p, phys) => p !in live && OthersKeepOff(live[p := phys], mine, ops[1..])
    case Drop(p) => p in live && p !in mine && OthersKeepOff(live - {p}, mine, ops[1..])
  }

  function Others(live: map<nat, nat>, ops: seq<Other>): map<nat, nat>
    decreases |ops|
  {
    if ops == [] then live
    else
      match ops[0]
      case Take(p, phys) => Others(live[p := phys], ops[1..])
      case Drop(p) => Others(live - {p}, ops[1..])
  }

  lemma {:induction false} OthersIgnoreMine(live: map<nat, nat>, mine: set<nat>, ops: seq<Other>)
    requires mine <= live.Keys && OthersKeepOff(live, mine, ops)
    ensures mine <= Others(live, ops).Keys
    ensures Others(live, ops) - mine == Others(live - mine, ops)
    decreases |ops|
  {
    if ops != [] {
      match ops[0]
      case Take(p, phys) =>
        OthersIgnoreMine(live[p := phys], mine, ops[1..]);
        assert live[p := phys] - mine == (live - mine)[p := phys];
      case Drop(p) =>
        OthersIgnoreMine(live - {p}, mine, ops[1..]);
        assert live - {p} - mine == live - mine - {p};
    }
  }

  /** A call of another user: to map one buffer, or to release one mapping. */
  datatype Call = GetOne(vaddr: nat, phys: nat, len: nat) | ReleaseOne(vaddr: nat)

  /** What calls do that leave the pages of `mine` alone. */
  function Effects(lo: nat, hi: nat, live: map<nat, nat>, mine: set<nat>, calls: seq<Call>): seq<Other>
    requires lo <= hi
    requires forall i :: 0 <= i < |calls| && calls[i].ReleaseOne? ==> calls[i].vaddr >= BASE_ADDR
    decreases |calls|
  {
    if calls == [] then []
    else
      match calls[0]
      case GetOne(_, phys, len) =>
        var p := FirstFree(lo, hi, live);
        if len > PAGE_SIZE || p == hi then Effects(lo, hi, live, mine, calls[1..])
        else [Take(p, phys)] + Effects(lo, hi, live[p := phys], mine, calls[1..])
      case ReleaseOne(vaddr) =>
        var p := PageOf(vaddr);
        if p in mine || p !in live then Effects(lo, hi, live, mine, calls[1..])
        else [Drop(p)] + Effects(lo, hi, live - {p}, mine, calls[1..])
  }

  /** What one call does: it maps the lowest free page if the buffer is no longer than a page and there is one, or
      releases a mapped page that is not of the list; and the other calls follow. */
  lemma EffectsOfOne(lo: nat, hi: nat, live: map<nat, nat>, mine: set<nat>, call: Call, rest: seq<Call>)
    requires lo <= hi && (call.ReleaseOne? ==> call.vaddr >= BASE_ADDR)
    requires forall i :: 0 <= i < |rest| && rest[i].ReleaseOne? ==> rest[i].vaddr >= BASE_ADDR
    ensures var next := if call.ReleaseOne? then live - ({PageOf(call.vaddr)} - mine)
                        else if call.len > PAGE_SIZE || FreePages(lo, hi, live) == {} then live
                        else live[FirstFree(lo, hi, live) := call.phys];
            Others(live, Effects(lo, hi, live, mine, [call] + rest)) == Others(next, Effects(lo, hi, next, mine, rest))
  {
    assert ([call] + rest)[1..] == rest;
    var p := FirstFree(lo, hi, live);
    assert p < hi ==> p in FreePages(lo, hi, live);
    assert p == hi ==> FreePages(lo, hi, live) == {};
    if call.ReleaseOne? && (PageOf(call.vaddr) in mine || PageOf(call.vaddr) !in live) {
      assert live - ({PageOf(call.vaddr)} - mine) == live;
    } else if call.ReleaseOne? {
      assert live - ({PageOf(call.vaddr)} - mine) == live - {PageOf(call.vaddr)};
      var after := Effects(lo, hi, live - {PageOf(call.vaddr)}, mine, rest);
      assert ([Drop(PageOf(call.vaddr))] + after)[1..] == after;
    } else if call.len <= PAGE_SIZE && p < hi {
      var after := Effects(lo, hi, live[p := call.phys], mine, rest);
      assert ([Take(p, call.phys)] + after)[1..] == after;
    }
  }

  lemma {:induction false} EffectsKeepOff(lo: nat, hi: nat, live: map<nat, nat>, mine: set<nat>, calls: seq<Call>)
    requires lo <= hi
    requires forall i :: 0 <= i < |calls| && calls[i].ReleaseOne? ==> calls[i].vaddr >= BASE_ADDR
    ensures OthersKeepOff(live, mine, Effects(lo, hi, live, mine, calls))
    decreases |calls|
  {
    if calls != [] {
      match calls[0]
      case GetOne(_, phys, len) =>
        var p := FirstFree(lo, hi, live);
        EffectsKeepOff(lo, hi, if len > PAGE_SIZE || p == hi then live else live[p := phys], mine, calls[1..]);
      case ReleaseOne(vaddr) =>
        var p := PageOf(vaddr);
        EffectsKeepOff(lo, hi, if p in mine || p !in live then live else live - {p}, mine, calls[1..]);
    }
  }

  /** The addresses written into a list lead back to the pages its elements were given. */
  lemma AddressesLeadBack(sg: seq<SgEntry>, pages: seq<nat>)
    requires |pages| == |sg|
    ensures forall j :: 0 <= j < |sg| ==>
              var a := Addressed(sg, 0, pages)[j].dvma; a >= BASE_ADDR && PageOf(a) == pages[j]
    ensures ListPages(Addressed(sg, 0, pages)) == pages
  {
    forall j | 0 <= j < |sg|
      ensures Addressed(sg, 0, pages)[j].dvma >= BASE_ADDR && PageOf(Addressed(sg, 0, pages)[j].dvma) == pages[j]
    {
      AddressSplits(pages[j], sg[j].addr % PAGE_SIZE);
    }
  }

  lemma PagesReleased(lo: nat, hi: nat, live: map<nat, nat>, sg: seq<SgEntry>, pl: Placed, ops: seq<Other>)
    requires OnFreePages(lo, hi, live, sg, 0, pl) && Packed(lo, pl)
    requires OthersKeepOff(pl.live, SetOf(pl.pages), ops)
    ensures ReleaseFrom(Others(pl.live, ops), pl.pages, 0) == Some(Others(live, ops))
  {
    assert forall j :: 0 <= j < |pl.pages| ==> pl.pages[j] in SetOf(pl.pages);
    OthersIgnoreMine(pl.live, SetOf(pl.pages), ops);
    assert pl.live - SetOf(pl.pages) == live;
    ReleasedAll(Others(pl.live, ops), pl.pages, 0);
    assert pl.pages[0..] == pl.pages;
  }

  /** Mapping a list and releasing it by the addresses written into it, whatever others map and release in between,
      leaves exactly the mappings their operations alone would have left. */
  lemma MapThenRelease(lo: nat, hi: nat, live: map<nat, nat>, sg: seq<SgEntry>, ops: seq<Other>)
    requires lo <= hi && PlaceFrom(lo, hi, live, sg, 0).Some?
    requires var pl := PlaceFrom(lo, hi, live, sg, 0).value; OthersKeepOff(pl.live, SetOf(pl.pages), ops)
    ensures var pl := PlaceFrom(lo, hi, live, sg, 0).value;
            var list := Addressed(sg, 0, pl.pages);
            && (forall j :: 0 <= j < |list| ==> list[j].dvma >= BASE_ADDR)
            && ReleaseFrom(Others(pl.live, ops), ListPages(list), 0) == Some(Others(live, ops))
  {
    var pl := PlaceFrom(lo, hi, live, sg, 0).value;
    AddressesLeadBack(sg, pl.pages);
    PlacedPages(lo, hi, live, sg, 0);
    PlacedApart(lo, hi, live, sg, 0);
    PagesReleased(lo, hi, live, sg, pl, ops);
  }

  // ---------------------------------------------------------------------------------------------------------------
  // What a device reaches through a mapping.

  /** A device access to byte k from bus address a arrives at physical address phys + k. */
  predicate Reaches(h: Hardware, a: nat, phys: nat, k: nat)
    requires a >= BASE_ADDR
  {
    (a + k - BASE_ADDR) / PAGE_SIZE < |h.mem| && h.Physical(a + k) == phys + k
  }

  /** The page after `page` is mapped to the physical page after that of `phys`. */
  predicate Continues(live: map<nat, nat>, page: nat, phys: nat) {
    page + 1 in live && live[page + 1] / PAGE_SIZE == phys / PAGE_SIZE + 1
  }

  /** The device reaches each byte of a mapped buffer at its physical address if the buffer ends within its page. A
      buffer that runs over, which the length check lets through, is reached right exactly when the next page happens
      to be mapped to the next physical page. */
  lemma BytesReached(h: Hardware, live: map<nat, nat>, page: nat, vaddr: nat, phys: nat, len: nat)
    requires |h.cpu| == |h.mem| && Holds(h.cpu, live) && forall i :: 0 <= i < |h.cpu| ==> h.Settled(i, h.cpu[i])
    requires page in live && live[page] == phys
    requires phys % PAGE_SIZE == vaddr % PAGE_SIZE && len <= PAGE_SIZE
    ensures (forall k :: 0 <= k < len ==> Reaches(h, AddressOf(page, vaddr % PAGE_SIZE), phys, k)) <==>
            vaddr % PAGE_SIZE + len <= PAGE_SIZE || Continues(live, page, phys)
  {
    var off := vaddr % PAGE_SIZE;
    var a := AddressOf(page, off);
    MakePteEncodes(phys);
    NextTranslates(h, live, page, phys);
    forall k | 0 <= k < len
      ensures Reaches(h, a, phys, k) <==> off + k < PAGE_SIZE || Continues(live, page, phys)
    {
      if off + k < PAGE_SIZE {
        AddressSplits(page, off + k);
      } else {
        AddressSplits(page + 1, off + k - PAGE_SIZE);
        assert a + k == AddressOf(page + 1, off + k - PAGE_SIZE);
        assert phys + k == (phys / PAGE_SIZE + 1) * PAGE_SIZE + (off + k - PAGE_SIZE);
      }
    }
    if off + len > PAGE_SIZE {
      assert Reaches(h, a, phys, PAGE_SIZE - off) <==> Continues(live, page, phys);
    }
  }

  /** What the mapping of one list element achieves: of the element only the address is new; it leads to a page mapped
      to the buffer, at the offset of the buffer; and a device reaches every byte of the buffer from there if it ends
      within its page, and otherwise exactly when the next page happens to go on. */
  ghost predicate Mapped(h: Hardware, live: map<nat, nat>, was: SgEntry, e: SgEntry) {
    && e == was.(dvma := e.dvma) && e.dvma >= BASE_ADDR && e.dvma % PAGE_SIZE == e.addr % PAGE_SIZE
    && PageOf(e.dvma) in live && live[PageOf(e.dvma)] == e.phys
    && (e.phys % PAGE_SIZE == e.addr % PAGE_SIZE ==>
          ((forall k :: 0 <= k < e.len ==> Reaches(h, e.dvma, e.phys, k)) <==>
           e.addr % PAGE_SIZE + e.len <= PAGE_SIZE || Continues(live, PageOf(e.dvma), e.phys)))
  }

  lemma AllMapped(h: Hardware, lo: nat, hi: nat, live: map<nat, nat>, sg: seq<SgEntry>, was: seq<SgEntry>, pl: Placed)
    requires lo <= hi && PlaceFrom(lo, hi, live, was, 0) == Some(pl) && sg == Addressed(was, 0, pl.pages)
    requires |h.cpu| == |h.mem| && Holds(h.cpu, pl.live) && forall i :: 0 <= i < |h.cpu| ==> h.Settled(i, h.cpu[i])
    ensures forall j :: 0 <= j < |sg| ==> Mapped(h, pl.live, was[j], sg[j])
  {
    PlacedExactly(lo, hi, live, was, 0);
    PlacedPages(lo, hi, live, was, 0);
    forall j | 0 <= j < |sg|
      ensures Mapped(h, pl.live, was[j], sg[j])
    {
      var page := pl.pages[j - 0];
      assert PageOf(sg[j].dvma) == page && sg[j].dvma % PAGE_SIZE == was[j].addr % PAGE_SIZE;
      AddressSplits(page, was[j].addr % PAGE_SIZE);
      assert sg[j].dvma == AddressOf(page, was[j].addr % PAGE_SIZE);
      assert pl.live[page] == was[0 + j].phys;
      if was[j].phys % PAGE_SIZE == was[j].addr % PAGE_SIZE {
        BytesReached(h, pl.live, page, was[j].addr, was[j].phys, was[j].len);
      }
    }
  }

  lemma NextTranslates(h: Hardware, live: map<nat, nat>, page: nat, phys: nat)
    requires |h.cpu| == |h.mem| && Holds(h.cpu, live) && forall i :: 0 <= i < |h.cpu| ==> h.Settled(i, h.cpu[i])
    ensures Continues(live, page, phys) <==>
            page + 1 < |h.mem| && IsValid(h.Lookup(page + 1)) && h.Lookup(page + 1) / 256 == phys / PAGE_SIZE + 1
  {
    if page + 1 < |h.mem| {
      ValidMeansHeld(h.cpu, live, page + 1);
      if page + 1 in live {
        MakePteEncodes(live[page + 1]);
      }
    }
  }

  /** Two bytes at the end of a page, which the length check lets through: the second one is not reached. */
  method CrossingBuffer(mem: seq<nat>, tlb: map<nat, nat>) returns (iommu: Iommu, a: Option<nat>)
    requires |mem| == 16
    ensures fresh(iommu) && iommu.Valid() && iommu.live == map[0 := 4095] && a == Some(AddressOf(0, 4095))
    ensures !Reaches(iommu.Hw(), a.value, 4095, 1)
  {
    iommu := new Iommu(0, 8, 8, 16, mem, tlb);
    a := iommu.GetScsiOne(4095, 4095, 2);
    assert iommu.live == map[0 := 4095];
    BytesReached(iommu.Hw(), iommu.live, 0, 4095, 4095, 1);
    assert Reaches(iommu.Hw(), a.value, 4095, 0);
  }
}
