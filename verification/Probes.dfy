/** From hop probes to the constraint system: what a localization says about the probes. */
module Probes {
  import opened Orders
  import opened Problem
  import opened Reduction
  import opened Localizer

  datatype HopProbe = HopProbe(begin: nat, end: nat, success: bool)

  predicate InRange(p: HopProbe, h: nat) {
    p.begin <= h < p.end
  }

  predicate ProbeOk(p: HopProbe, n: nat) {
    p.begin < p.end <= n
  }

  /** A successful probe crossed the hop. */
  ghost predicate Healthy(probes: seq<HopProbe>, h: nat) {
    exists i :: 0 <= i < |probes| && probes[i].success && InRange(probes[i], h)
  }

  /** The failed probes, in order. */
  function Failed(probes: seq<HopProbe>): seq<HopProbe> {
    if probes == [] then []
    else if probes[|probes| - 1].success then Failed(probes[..|probes| - 1])
    else Failed(probes[..|probes| - 1]) + [probes[|probes| - 1]]
  }

  /** The faulty hops explain a probe: a success crosses none of them, a failure crosses one. */
  ghost predicate Explains(h: set<nat>, p: HopProbe) {
    if p.success then forall x :: x in h ==> !InRange(p, x) else exists x :: x in h && InRange(p, x)
  }

  ghost predicate Consistent(n: nat, probes: seq<HopProbe>, h: set<nat>) {
    h <= Below(n) && forall i :: 0 <= i < |probes| ==> Explains(h, probes[i])
  }

  ghost predicate LiveHops(probes: seq<HopProbe>, p: HopProbe, s: seq<nat>) {
    Ascending(s) && forall h: nat :: h in s <==> InRange(p, h) && !Healthy(probes, h)
  }

  /** The constraint system the probes stand for. */
  ghost predicate Derived(n: nat, probes: seq<HopProbe>, inp: Input) {
    && inp.elementCount == n
    && Ascending(inp.provenOk) && (forall h: nat :: h in inp.provenOk <==> h < n && Healthy(probes, h))
    && |inp.failureSets| == |Failed(probes)|
    && forall i :: 0 <= i < |inp.failureSets| ==> LiveHops(probes, Failed(probes)[i], inp.failureSets[i])
  }

  lemma {:induction false} FailedMember(probes: seq<HopProbe>, p: HopProbe)
    ensures p in Failed(probes) <==> p in probes && !p.success
  {
    if probes != [] {
      FailedMember(probes[..|probes| - 1], p);
      assert probes == probes[..|probes| - 1] + [probes[|probes| - 1]];
    }
  }

  lemma {:induction false} FailedCount(probes: seq<HopProbe>)
    ensures |Failed(probes)| <= |probes|
  {
    if probes != [] {
      FailedCount(probes[..|probes| - 1]);
    }
  }

  lemma DerivedCandidate(n: nat, probes: seq<HopProbe>, inp: Input, h: nat)
    requires Derived(n, probes, inp)
    ensures h in Candidates(inp) <==> h < n && !Healthy(probes, h)
  {}

  lemma ConsistentIsHitting(n: nat, probes: seq<HopProbe>, inp: Input, h: set<nat>)
    requires Derived(n, probes, inp) && Consistent(n, probes, h)
    ensures HittingSet(inp, h)
  {
    forall x | x in h
      ensures x in Candidates(inp)
    {
      DerivedCandidate(n, probes, inp, x);
      forall i | 0 <= i < |probes| && probes[i].success
        ensures !InRange(probes[i], x)
      {
        assert Explains(h, probes[i]);
      }
    }
    forall i | 0 <= i < |inp.failureSets|
      ensures Hits(inp.failureSets[i], h)
    {
      var p := Failed(probes)[i];
      FailedMember(probes, p);
      assert Explains(h, p);
      var x :| x in h && InRange(p, x);
      DerivedCandidate(n, probes, inp, x);
      assert LiveHops(probes, p, inp.failureSets[i]);
      assert x in inp.failureSets[i];
    }
  }

  lemma HittingIsConsistent(n: nat, probes: seq<HopProbe>, inp: Input, h: set<nat>)
    requires Derived(n, probes, inp) && HittingSet(inp, h)
    ensures Consistent(n, probes, h)
  {
    forall x | x in h
      ensures x < n && !Healthy(probes, x)
    {
      DerivedCandidate(n, probes, inp, x);
    }
    forall i | 0 <= i < |probes|
      ensures Explains(h, probes[i])
    {
      var p := probes[i];
      if p.success {
        forall x | x in h
          ensures !InRange(p, x)
        {
          assert !Healthy(probes, x);
        }
      } else {
        FailedMember(probes, p);
        var k :| 0 <= k < |Failed(probes)| && Failed(probes)[k] == p;
        assert Hits(inp.failureSets[k], h);
        var x :| x in inp.failureSets[k] && x in h;
        assert LiveHops(probes, p, inp.failureSets[k]);
      }
    }
  }

  /** Faulty hops explain every probe exactly when they hit the derived constraint system. */
  lemma ProbesAreConstraints(n: nat, probes: seq<HopProbe>, inp: Input, h: set<nat>)
    requires Derived(n, probes, inp)
    ensures Consistent(n, probes, h) <==> HittingSet(inp, h)
  {
    if Consistent(n, probes, h) {
      ConsistentIsHitting(n, probes, inp, h);
    }
    if HittingSet(inp, h) {
      HittingIsConsistent(n, probes, inp, h);
    }
  }

  /** A proven localization is a smallest set of faulty hops that explains the probes. */
  lemma LocalizationExplains(n: nat, probes: seq<HopProbe>, inp: Input, r: Reduced, g: set<nat>)
    requires Derived(n, probes, inp) && ValidInput(inp) && IsReduction(inp, r)
    requires Answer(inp, r).optimalityProven
    ensures Consistent(n, probes, Elems(Answer(inp, r).elements))
    ensures Consistent(n, probes, g) ==> |Elems(Answer(inp, r).elements)| <= |g|
  {
    LocalizeOptimal(inp, r);
    hide IsReduction, Derived, ValidInput;
    ProbesAreConstraints(n, probes, inp, Elems(Answer(inp, r).elements));
    ProbesAreConstraints(n, probes, inp, g);
  }

  /** Proven infeasibility means that no set of faulty hops explains the probes. */
  lemma InfeasibleExplains(n: nat, probes: seq<HopProbe>, inp: Input, r: Reduced)
    requires Derived(n, probes, inp) && ValidInput(inp) && IsReduction(inp, r)
    ensures Answer(inp, r).status == ProvenInfeasible <==> !exists h :: Consistent(n, probes, h)
  {
    LocalizeInfeasible(inp, r);
    hide IsReduction, Derived, ValidInput, Consistent;
    forall h {
      ProbesAreConstraints(n, probes, inp, h);
    }
  }

  // ---- the computation ----

  method MarkHealthy(n: nat, probes: seq<HopProbe>) returns (good: bool, ok: seq<bool>)
    ensures good <==> forall i :: 0 <= i < |probes| ==> ProbeOk(probes[i], n)
    ensures good ==> |ok| == n && forall h :: 0 <= h < n ==> (ok[h] <==> Healthy(probes, h))
  {
    ok := seq(n, _ => false);
    for i := 0 to |probes|
      invariant |ok| == n
      invariant forall k :: 0 <= k < i ==> ProbeOk(probes[k], n)
      invariant forall h :: 0 <= h < n ==>
                  (ok[h] <==> exists k :: 0 <= k < i && probes[k].success && InRange(probes[k], h))
    {
      var p := probes[i];
      if p.end <= p.begin || p.end > n {
        assert !ProbeOk(probes[i], n);
        return false, ok;
      }
      if p.success {
        ghost var before := ok;
        for h := p.begin to p.end
          invariant |ok| == n
          invariant forall x :: 0 <= x < n ==> (ok[x] <==> before[x] || p.begin <= x < h)
        {
          ok := ok[h := true];
        }
      }
    }
    good := true;
  }

  method HealthyList(n: nat, ok: seq<bool>) returns (s: seq<nat>)
    requires |ok| == n
    ensures Ascending(s) && forall h: nat :: h in s <==> h < n && ok[h]
  {
    s := [];
    for h := 0 to n
      invariant Ascending(s) && forall k :: 0 <= k < |s| ==> s[k] < h
      invariant forall x: nat :: x in s <==> x < h && ok[x]
    {
      if ok[h] {
        s := s + [h];
      }
    }
  }

  method LiveRange(p: HopProbe, ok: seq<bool>) returns (s: seq<nat>)
    requires ProbeOk(p, |ok|)
    ensures Ascending(s) && forall h: nat :: h in s <==> InRange(p, h) && !ok[h]
  {
    s := [];
    for h := p.begin to p.end
      invariant Ascending(s) && forall k :: 0 <= k < |s| ==> s[k] < h
      invariant forall x: nat :: x in s <==> p.begin <= x < h && !ok[x]
    {
      if !ok[h] {
        s := s + [h];
      }
    }
  }

  lemma MembersBelow(s: seq<nat>, n: nat)
    requires Ascending(s) && forall h: nat :: h in s ==> h < n
    ensures InRangeAscending(s, n)
  {
    forall k | 0 <= k < |s|
      ensures s[k] < n
    {
      assert s[k] in s;
    }
  }

  /** Derives the constraint system, or says why it cannot. */
  method BuildInput(n: nat, probes: seq<HopProbe>, budget: nat, maxSolutions: nat) returns (v: Verdict, inp: Input)
    ensures v == Ok ==> Derived(n, probes, inp) && ValidInput(inp)
                        && inp.nodeBudget == budget && inp.maxSolutions == maxSolutions
    ensures v == Ok <==>
            && 0 < n && |probes| <= MAX_SETS
            && (forall i :: 0 <= i < |probes| ==> ProbeOk(probes[i], n))
            && Unproven(n, probes) <= MAX_CANDIDATES && budget > 0 && maxSolutions > 0
  {
    inp := Input(0, [], [], 0, 0);
    if n == 0 {
      return Invalid, inp;
    }
    if |probes| > MAX_SETS {
      return Oversized, inp;
    }
    var good, ok := MarkHealthy(n, probes);
    if !good {
      return Invalid, inp;
    }
    var proven := HealthyList(n, ok);
    var sets: seq<seq<nat>> := [];
    for i := 0 to |probes|
      invariant |sets| == |Failed(probes[..i])|
      invariant forall k :: 0 <= k < |sets| ==> LiveHops(probes, Failed(probes[..i])[k], sets[k])
      invariant forall k :: 0 <= k < |sets| ==> InRangeAscending(sets[k], n)
    {
      assert probes[..i + 1][..i] == probes[..i];
      if !probes[i].success {
        var s := LiveRange(probes[i], ok);
        MembersBelow(s, n);
        sets := sets + [s];
      }
    }
    assert probes[..|probes|] == probes;
    inp := Input(n, proven, sets, budget, maxSolutions);
    FailedCount(probes);
    UnprovenCount(n, probes, inp);
    MembersBelow(proven, n);
    v := Validate(inp);
  }

  /** The hops no successful probe crossed. */
  ghost function Unproven(n: nat, probes: seq<HopProbe>): nat {
    |set h | h in Below(n) && !Healthy(probes, h)|
  }

  lemma UnprovenCount(n: nat, probes: seq<HopProbe>, inp: Input)
    requires Derived(n, probes, inp)
    ensures Unproven(n, probes) == inp.elementCount - |inp.provenOk| && |inp.provenOk| <= n
  {
    MembersBelow(inp.provenOk, n);
    CandidateCount(inp);
    AscendingCount(inp.provenOk);
    assert Elems(inp.provenOk) <= Below(n);
    SubsetNoLarger(Elems(inp.provenOk), Below(n));
    assert Candidates(inp) == set h | h in Below(n) && !Healthy(probes, h);
  }
}
