/** Starting the secondary processors, counting them, and linking the present ones into the ring along which
    interrupt reception is passed on. Bit i of `cpu_present_map` is membership of i in a set.
*/
module CpuBoot {
  import opened FiniteSets

  /** `linux_cpus[i].mid & ~8`. */
  function ClearBit3(mid: nat): (r: nat)
    ensures r / 8 % 2 == 0 && r % 8 == mid % 8 && r / 16 == mid / 16
  {
    mid - 8 * (mid / 8 % 2)
  }

  // ---------------------------------------------------------------------------------------------------------------
  // The ring.

  /** q follows p among the present processors in increasing order, the least one following the greatest. */
  ghost predicate Follows(present: set<nat>, p: nat, q: nat) {
    && q in present
    && forall x :: x in present ==> if p < q then x <= p || q <= x else q <= x <= p
  }

  ghost predicate RingLinked(present: set<nat>, next: seq<nat>) {
    && (forall p :: p in present ==> p < |next|)
    && forall p {:trigger next[p]} :: p in present ==> Follows(present, p, next[p])
  }

  /** The processor reached from p after k hand-overs. */
  ghost function Walk(next: seq<nat>, p: nat, k: nat): nat {
    if k == 0 then p
    else
      var q := Walk(next, p, k - 1);
      if q < |next| then next[q] else q
  }

  ghost function Lower(present: set<nat>, p: nat): set<nat> {
    set x | x in present && x < p
  }

  lemma LowerGrows(present: set<nat>, p: nat, q: nat)
    requires p in present && q in present && p < q
    ensures |Lower(present, p)| < |Lower(present, q)| < |present|
  {
    SubsetSmaller(Lower(present, p), Lower(present, q), p);
    SubsetSmaller(Lower(present, q), present, q);
  }

  lemma SubsetSmaller(a: set<nat>, b: set<nat>, x: nat)
    requires a <= b && x in b && x !in a
    ensures |a| < |b|
  {
    SubsetNotLarger(a, b - {x});
  }

  /** One hand-over moves one place up in increasing order, and from the last place to the first. */
  lemma FollowsRank(present: set<nat>, p: nat, q: nat)
    requires p in present && Follows(present, p, q)
    ensures var r := |Lower(present, p)| + 1;
            |Lower(present, q)| == if r == |present| then 0 else r
  {
    if p < q {
      assert Lower(present, q) == Lower(present, p) + {p};
      LowerGrows(present, p, q);
    } else {
      assert Lower(present, q) == {};
      assert present == Lower(present, p) + {p};
      assert |present| == |Lower(present, p)| + 1;
    }
  }

  lemma {:induction false} WalkRank(present: set<nat>, next: seq<nat>, p: nat, k: nat)
    requires RingLinked(present, next) && p in present && k <= |present|
    ensures var r := |Lower(present, p)| + k;
            Walk(next, p, k) in present &&
            |Lower(present, Walk(next, p, k))| == if r < |present| then r else r - |present|
  {
    SubsetSmaller(Lower(present, p), present, p);
    if k > 0 {
      WalkRank(present, next, p, k - 1);
      var q := Walk(next, p, k - 1);
      FollowsRank(present, q, next[q]);
    }
  }

  /** The links form one cycle: from any present processor every present processor is reached after exactly one
      number of hand-overs below the number of processors, and after that many one is back. */
  lemma RingVisitsAll(present: set<nat>, next: seq<nat>, p: nat, q: nat)
    requires RingLinked(present, next) && p in present && q in present
    ensures Walk(next, p, |present|) == p
    ensures exists k :: 0 <= k < |present| && Walk(next, p, k) == q
    ensures forall k, m :: 0 <= k < |present| && 0 <= m < |present| && Walk(next, p, k) == Walk(next, p, m) ==> k == m
  {
    var rp, rq := |Lower(present, p)|, |Lower(present, q)|;
    SubsetSmaller(Lower(present, p), present, p);
    SubsetSmaller(Lower(present, q), present, q);
    WalkRank(present, next, p, |present|);
    RankInjective(present, Walk(next, p, |present|), p);
    var k := if rq >= rp then rq - rp else rq - rp + |present|;
    WalkRank(present, next, p, k);
    RankInjective(present, Walk(next, p, k), q);
    forall k: nat, m: nat | k < |present| && m < |present| && Walk(next, p, k) == Walk(next, p, m)
      ensures k == m
    {
      WalkRank(present, next, p, k);
      WalkRank(present, next, p, m);
    }
  }

  lemma RankInjective(present: set<nat>, p: nat, q: nat)
    requires p in present && q in present && |Lower(present, p)| == |Lower(present, q)|
    ensures p == q
  {
    if p < q {
      LowerGrows(present, p, q);
    } else if q < p {
      LowerGrows(present, q, p);
    }
  }

  // ---------------------------------------------------------------------------------------------------------------
  // The count.

  /** The secondaries seen to have called in by the given look at `cpu_callin_map`. */
  function Secondaries(ncpus: nat, boot: nat, callin: seq<bool>): set<nat>
    requires ncpus <= |callin|
  {
    set i | 0 <= i < ncpus && i != boot && callin[i]
  }

  /** `cpu_present_map` and `smp_num_cpus`. */
  datatype Booted = Booted(present: set<nat>, numCpus: nat)

  /** What booting leaves, when the two looks at cpu_callin_map find `first` and `second` and smp_num_cpus was `before`:
      with no secondary seen by the first look, the boot processor alone and the count as it was. */
  function AfterBoot(ncpus: nat, boot: nat, first: seq<bool>, second: seq<bool>, before: nat): Booted
    requires ncpus <= |first| && ncpus <= |second|
  {
    var started := Secondaries(ncpus, boot, first);
    if ncpus == 1 || started == {} then Booted({boot}, before)
    else Booted(Secondaries(ncpus, boot, second) + {boot}, |started| + 1)
  }

  /** The processors present are the one that boots and, if the first look saw any of the others, those the second look
      saw; and as many are counted as the first look saw, with the one that boots. */
  lemma BootedExactly(ncpus: nat, boot: nat, first: seq<bool>, second: seq<bool>, before: nat)
    requires boot < ncpus && ncpus <= |first| && ncpus <= |second|
    ensures var b := AfterBoot(ncpus, boot, first, second, before);
            var seen := set i | 0 <= i < ncpus && i != boot && first[i];
            && (forall x: nat :: x in b.present <==> x == boot || (x < ncpus && seen != {} && second[x]))
            && b.numCpus == if seen == {} then before else 1 + |seen|
  {
    assert Secondaries(ncpus, boot, first) == set i | 0 <= i < ncpus && i != boot && first[i];
    if ncpus == 1 {
      assert Secondaries(ncpus, boot, first) == {};
    }
  }

  /** No processor called in after the first look and before the second. */
  predicate NoneLate(ncpus: nat, boot: nat, first: seq<bool>, second: seq<bool>)
    requires ncpus <= |first| && ncpus <= |second|
  {
    forall i :: 0 <= i < ncpus && i != boot && second[i] ==> first[i]
  }

  /** A processor that has called in stays called in. */
  predicate LooksAgree(ncpus: nat, first: seq<bool>, second: seq<bool>) {
    && ncpus <= |first| && ncpus <= |second|
    && forall i :: 0 <= i < ncpus && first[i] ==> second[i]
  }

  /** The count is that of the processors in the map exactly when no secondary was seen by the first look or none
      called in between the two. */
  lemma CountMatchesMap(ncpus: nat, boot: nat, first: seq<bool>, second: seq<bool>)
    requires boot < ncpus && LooksAgree(ncpus, first, second)
    ensures var b := AfterBoot(ncpus, boot, first, second, 1);
            b.numCpus == |b.present| <==>
            Secondaries(ncpus, boot, first) == {} || NoneLate(ncpus, boot, first, second)
  {
    CountsCompared(ncpus, boot, first, second);
  }

  lemma CountsCompared(ncpus: nat, boot: nat, first: seq<bool>, second: seq<bool>)
    requires boot < ncpus && LooksAgree(ncpus, first, second)
    ensures var a, b := Secondaries(ncpus, boot, first), Secondaries(ncpus, boot, second);
            |a| <= |b| && |b + {boot}| == |b| + 1 && (|a| == |b| <==> NoneLate(ncpus, boot, first, second))
  {
    var a, b := Secondaries(ncpus, boot, first), Secondaries(ncpus, boot, second);
    SubsetNotLarger(a, b);
    if a == b {
      forall i | 0 <= i < ncpus && i != boot && second[i]
        ensures first[i]
      {
        assert i in b;
      }
    } else {
      assert a != b;
    }
  }

  /** Three processors, the last of which calls in between the two looks: three are present and two are counted. */
  lemma LateProcessorNotCounted()
    ensures AfterBoot(3, 0, [false, true, false], [false, true, true], 1) == Booted({0, 1, 2}, 2)
  {
    var first, second := [false, true, false], [false, true, true];
    assert Secondaries(3, 0, first) == {1};
    assert Secondaries(3, 0, second) == {1, 2};
  }

  class Smp {
    const slots: nat
    var present: set<nat>
    var numCpus: nat
    var ready: bool
    var next: array<nat>
    var mid: array<nat>
    var midXlate: array<nat>
    var irqTarget: nat

    ghost predicate Valid()
      reads this
    {
      && next.Length == mid.Length == midXlate.Length == slots
      && next != mid && next != midXlate && mid != midXlate
      && forall p :: p in present ==> p < slots
    }

    constructor (slots: nat)
      ensures Valid() && !ready && numCpus == 1 && this.slots == slots && fresh(next) && fresh(mid) && fresh(midXlate)
    {
      this.slots := slots;
      present, numCpus, ready, irqTarget := {}, 1, false, 0;
      next, mid, midXlate := new nat[slots], new nat[slots], new nat[slots];
    }

    /** smp4m_boot_cpus. `first` and `second` are what the two looks at cpu_callin_map find for each processor: after
        the wait, and again when the present map is corrected. */
    method BootCpus(ncpus: nat, boot: nat, mids: seq<nat>, first: seq<bool>, second: seq<bool>)
      requires Valid() && boot < ncpus <= slots && |mids| == |first| == |second| == slots
      modifies this`present, this`numCpus, this`ready, this`irqTarget, next, mid, midXlate
      ensures Valid()
      ensures irqTarget == ClearBit3(mids[boot])
      ensures ncpus == 1 ==> ready == old(ready)
      ensures Booted(present, numCpus) == AfterBoot(ncpus, boot, first, second, old(numCpus))
      ensures ncpus > 1 ==>
                && ready
                && RingLinked(present, next[..])
                && (forall p :: p in present ==> mid[p] == ClearBit3(mids[p]))
    {
      present := {};
      var i := 0;
      while i < ncpus
        modifies this`present
        invariant i <= ncpus && forall x :: x in present <==> 0 <= x < i
      {
        present := present + {i};
        i := i + 1;
      }
      midXlate[boot] := ClearBit3(mids[boot]);
      irqTarget := midXlate[boot];
      if ncpus == 1 {
        assert present == {boot};
        return;
      }
      var count := StartSecondaries(ncpus, boot, mids, first, second);
      if count == 0 {
        present := {boot};
      } else {
        numCpus := count + 1;
      }
      LinkRing();
      ready := true;
    }

    /** The loop that starts each secondary, waits for it and corrects the present map. */
    method StartSecondaries(ncpus: nat, boot: nat, mids: seq<nat>, first: seq<bool>, second: seq<bool>)
        returns (count: nat)
      requires Valid() && boot < ncpus <= slots && |mids| == |first| == |second| == slots
      requires forall x :: x in present <==> 0 <= x < ncpus
      requires midXlate[boot] == ClearBit3(mids[boot])
      modifies this`present, midXlate
      ensures Valid()
      ensures count == |Secondaries(ncpus, boot, first)|
      ensures present == Secondaries(ncpus, boot, second) + {boot}
      ensures forall p :: 0 <= p < ncpus ==> midXlate[p] == ClearBit3(mids[p])
    {
      count := 0;
      ghost var seen: set<nat> := {};
      var i := 0;
      while i < slots
        invariant i <= slots && Valid()
        invariant forall x :: x in seen <==> 0 <= x < ncpus && x < i && x != boot && first[x]
        invariant count == |seen|
        invariant forall x :: x in present <==> 0 <= x < ncpus && (x == boot || x >= i || second[x])
        invariant midXlate[boot] == ClearBit3(mids[boot])
        invariant forall x :: 0 <= x < ncpus && x < i ==> midXlate[x] == ClearBit3(mids[x])
      {
        if i != boot {
          if i in present {
            midXlate[i] := ClearBit3(mids[i]);
            if first[i] {
              count := count + 1;
              seen := seen + {i};
            }
          }
          if !second[i] {
            present := present - {i};
          }
        }
        i := i + 1;
      }
      assert seen == Secondaries(ncpus, boot, first);
    }

    /** The loop that sets up the list for interrupt distribution. */
    method LinkRing()
      requires Valid() && present != {}
      modifies next, mid
      ensures Valid()
      ensures RingLinked(present, next[..])
      ensures forall p :: p in present ==> mid[p] == midXlate[p]
    {
      var first, prev := -1, -1;
      var i := 0;
      while i < slots
        invariant i <= slots
        invariant first == -1 <==> prev == -1
        invariant first == -1 <==> forall x :: x in present ==> x >= i
        invariant first != -1 ==> 0 <= first <= prev < i && first in present && prev in present
        invariant forall x :: x in present && x < i ==> first <= x <= prev
        invariant forall p {:trigger next[p]} :: p in present && p < prev ==> Follows(present, p, next[p])
        invariant forall p :: p in present && p < i ==> mid[p] == midXlate[p]
      {
        if i in present {
          if first == -1 {
            first := i;
          }
          if prev != -1 {
            next[prev] := i;
          }
          mid[i] := midXlate[i];
          prev := i;
        }
        i := i + 1;
      }
      next[prev] := first;
    }

    /** smp4m_irq_rotate: hand interrupt reception to the processor after `cpu`. */
    method IrqRotate(cpu: nat)
      requires Valid() && cpu in present && (ready ==> RingLinked(present, next[..]))
      modifies this`irqTarget
      ensures !ready ==> irqTarget == old(irqTarget)
      ensures ready ==> Follows(present, cpu, next[cpu]) && irqTarget == mid[next[cpu]]
    {
      assert next[..][cpu] == next[cpu];
      if ready {
        irqTarget := mid[next[cpu]];
      }
    }
  }
}
