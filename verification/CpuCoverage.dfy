/** Which processors a cross call reaches, from what booting left in the present map and the count.
*/
module CpuCoverage {
  import opened FiniteSets
  import opened CpuBoot
  import opened CrossCall

  /** Whoever calls, every other present processor has an index the loops of the cross call get to. */
  ghost predicate AllCovered(b: Booted) {
    forall j, t :: j in b.present && t in b.present && j != t ==> t < b.numCpus
  }

  predicate Called(boot: nat, callin: seq<bool>, i: nat)
    requires i < |callin|
  {
    i == boot || callin[i]
  }

  /** No stuck processor comes before one that has called in. */
  predicate NoGap(ncpus: nat, boot: nat, callin: seq<bool>)
    requires ncpus <= |callin|
  {
    forall i, k :: 0 <= i < k < ncpus && Called(boot, callin, k) ==> Called(boot, callin, i)
  }

  /** Cross calls reach all present processors, whoever makes them, exactly when no secondary was seen to start or else
      none called in late and none is stuck before one that has started. */
  lemma CoverageFromBoot(ncpus: nat, boot: nat, first: seq<bool>, second: seq<bool>)
    requires boot < ncpus && LooksAgree(ncpus, first, second)
    ensures AllCovered(AfterBoot(ncpus, boot, first, second, 1)) <==>
            Secondaries(ncpus, boot, first) == {} ||
            (NoneLate(ncpus, boot, first, second) && NoGap(ncpus, boot, second))
  {
    var b := AfterBoot(ncpus, boot, first, second, 1);
    var started := Secondaries(ncpus, boot, first);
    if started != {} {
      CountsCompared(ncpus, boot, first, second);
      var x :| x in started;
      assert x in b.present && boot in b.present && x != boot;
      assert AllCovered(b) <==> forall t :: t in b.present ==> t < b.numCpus by {
        if AllCovered(b) {
          forall t | t in b.present
            ensures t < b.numCpus
          {
            assert t != x || t != boot;
          }
        }
      }
      if NoneLate(ncpus, boot, first, second) {
        BelowSize(b.present);
        GapInMap(ncpus, boot, second, b.present);
      } else if forall t :: t in b.present ==> t < b.numCpus {
        SubsetNotLarger(b.present, Below(b.numCpus));
      }
    }
  }

  lemma GapInMap(ncpus: nat, boot: nat, callin: seq<bool>, present: set<nat>)
    requires boot < ncpus <= |callin| && present == Secondaries(ncpus, boot, callin) + {boot}
    ensures NoGap(ncpus, boot, callin) <==> forall x, i: nat :: x in present && i < x ==> i in present
  {
    forall i: nat | i < ncpus
      ensures Called(boot, callin, i) <==> i in present
    {
    }
  }

  // ---------------------------------------------------------------------------------------------------------------
  // A run for every gap.

  /** Only processor j has made a call, and at most one. */
  ghost predicate Lone(s: State, j: nat, c: Call) {
    && j < |s.main|
    && (forall k :: 0 <= k < |s.main| && k != j ==> s.main[k].Idle?)
    && if s.calls == [] then s.main[j] == Want(c) else s.calls == [Issued(j, c)] && !s.main[j].Want?
  }

  lemma StepKeepsLone(g: Config, s: State, j: nat, c: Call, a: Action)
    requires Inv(g, s) && Lone(s, j, c) && Enabled(g, s, a) && !a.Invoke?
    ensures Lone(Step(g, s, a), j, c)
  {
  }

  lemma {:induction false} RunsToRest(g: Config, s: State, j: nat, c: Call) returns (acts: seq<Action>)
    requires Inv(g, s) && Lone(s, j, c)
    ensures Legal(g, s, acts)
    ensures var r := Exec(g, s, acts); Inv(g, r) && Lone(r, j, c) && AtRest(r)
    decreases Work(g, s)
  {
    acts := [];
    if !AtRest(s) {
      var a := SomeStepEnabled(g, s);
      StepKeepsInv(g, s, a);
      StepLowersWork(g, s, a);
      StepKeepsLone(g, s, j, c, a);
      var rest := RunsToRest(g, Step(g, s, a), j, c);
      acts := [a] + rest;
    }
  }

  /** For every present processor t that a call of processor j does not cover there is a run in which the call returns
      and t has not executed it. */
  lemma GapMisses(g: Config, j: nat, c: Call, t: nat) returns (acts: seq<Action>)
    requires g.Valid() && j in g.present && t in g.present && t != j && t >= g.ncpus
    ensures Legal(g, Init(g), acts)
    ensures var s := Exec(g, Init(g), acts);
            AtRest(s) && s.calls == [Issued(j, c)] && s.cpus[j].ran == [c] && s.cpus[t].ran == []
  {
    var s := Init(g);
    var called := Step(g, s, Invoke(j, c));
    StepKeepsInv(g, s, Invoke(j, c));
    var rest := RunsToRest(g, called, j, c);
    acts := [Invoke(j, c)] + rest;
    var r := Exec(g, s, acts);
    assert r == Exec(g, called, rest);
    assert r.calls == [] + [Issued(j, c)];
    assert r.main[j].Idle?;
    Once(g, j, c, j);
    Once(g, j, c, t);
  }

  lemma Once(g: Config, j: nat, c: Call, t: nat)
    ensures Expected(g, [Issued(j, c)], t) == if Covered(g, j, t) then [c] else []
  {
    assert [Issued(j, c)][..0] == [];
  }

  /** Three processors of which the second is stuck: the third is present, two are counted, and a call of the first
      returns without the third having executed it. */
  lemma StuckProcessorLeavesGap(c: Call) returns (g: Config, acts: seq<Action>)
    ensures Booted(g.present, g.ncpus) == AfterBoot(3, 0, [false, false, true], [false, false, true], 1)
    ensures g.Valid() && 2 in g.present && Legal(g, Init(g), acts)
    ensures var s := Exec(g, Init(g), acts);
            AtRest(s) && s.calls == [Issued(0, c)] && s.cpus[0].ran == [c] && s.cpus[2].ran == []
  {
    assert Secondaries(3, 0, [false, false, true]) == {2};
    g := Config(4, 2, {0, 2});
    acts := GapMisses(g, 0, c, 2);
  }
}
