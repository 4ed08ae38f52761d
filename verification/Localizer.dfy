/** The exact, budgeted localizer. */
module Localizer {
  import opened Words
  import opened Orders
  import opened Problem
  import opened Reduction
  import opened Covers
  import opened Oracle
  import opened Solutions
  import opened Enumerator
  import opened Bounds
  import opened Bridge

  /** Asks the oracle for growing sizes until it says yes or runs out. */
  function SizeSearch(cover: seq<set<nat>>, limit: nat, s: Search, full: set<nat>, k: nat): (Search, bool, nat)
    decreases MAX_CANDIDATES + 1 - k
  {
    if k > MAX_CANDIDATES then (s, false, 0)
    else
      var (t, found) := Query(cover, limit, s, full, k, 0);
      if found then (t, true, k)
      else if t.exhausted then (t, false, 0)
      else SizeSearch(cover, limit, t, full, k + 1)
  }

  function StartSize(sets: seq<bv64>): nat {
    if DisjointBound(sets) == 0 then 1 else DisjointBound(sets)
  }

  function GreedyList(candidates: seq<nat>, cover: seq<set<nat>>, full: set<nat>): seq<nat> {
    SortUnique(Named(candidates, Greedy(cover, full)))
  }

  function RemainingBudget(budget: nat, used: nat): nat {
    if budget > used then budget - used else 1
  }

  const INFEASIBLE_BLANK := BLANK.(status := ProvenInfeasible, hasInfeasibleWitness := true,
                                   reason := LocalizationInfeasible)

  const NOTHING_FAILED := BLANK.(status := Resolved, optimalityProven := true, uniquenessProven := true,
                                 solutionsFound := 1, reason := LocalizationResolved)

  /** The size search and the enumeration, as one pair of final states. */
  function Searched(inp: Input, r: Reduced): (Search, bool, nat) {
    SizeSearch(Sets(r.cover), inp.nodeBudget, FRESH, Bits(r.fullMask), StartSize(r.sets))
  }

  function RunLimits(inp: Input, used: nat): Limits {
    Limits(inp.nodeBudget, inp.maxSolutions, RemainingBudget(inp.nodeBudget, used))
  }

  function Enumerated(inp: Input, r: Reduced, t: Search, best: nat): Walk {
    Run(Sets(r.cover), RunLimits(inp, t.nodes), Walk(t, [], false, 0), [], Bits(r.fullMask), best, 0)
  }

  /** The whole result, given the reduced system. */
  function Answer(inp: Input, r: Reduced): Result {
    if r.hasEmptySet then INFEASIBLE_BLANK.(infeasibleWitness := r.emptySetOrigin)
    else if r.sets == [] then NOTHING_FAILED
    else
      var (t, found, best) := Searched(inp, r);
      if !found then
        BLANK.(searchNodes := t.nodes, status := Indeterminate, reason := LocalizationSearchLimit,
               elements := GreedyList(r.candidates, Sets(r.cover), Bits(r.fullMask)))
      else
        var w := Enumerated(inp, r, t, best);
        var out := BLANK.(
          optimalSize := best,
          searchNodes := t.nodes + w.nodes,
          solutionsFound := |w.visited|,
          solutionsTruncated := w.truncated,
          uniquenessProven := !w.truncated && |w.visited| == 1);
        if w.visited == [] then
          out.(status := Indeterminate, reason := LocalizationSearchLimit,
               elements := GreedyList(r.candidates, Sets(r.cover), Bits(r.fullMask)))
        else
          out.(optimalityProven := true,
               elements := Named(r.candidates, w.visited[0]),
               status := if |w.visited| > 1 then Ambiguous else Resolved,
               reason := if |w.visited| > 1 then LocalizationAmbiguous else LocalizationResolved)
  }

  // ---- what the search establishes ----

  /** The size search finds the optimum, refutes every size it can ask for, or runs out. */
  lemma {:induction false} SizeSearchExact(cover: seq<set<nat>>, limit: nat, s: Search, full: set<nat>, k: nat)
    requires Sound(cover, limit, s) && !s.exhausted && Narrow(full)
    requires k > 0 && !Feasible(cover, full, k - 1, 0)
    ensures var (t, found, best) := SizeSearch(cover, limit, s, full, k);
            && Sound(cover, limit, t)
            && (found ==> Optimum(cover, full, best) && !t.exhausted)
            && (!found && !t.exhausted ==> k > MAX_CANDIDATES + 1 || !Feasible(cover, full, MAX_CANDIDATES, 0))
    decreases MAX_CANDIDATES + 1 - k
  {
    if k <= MAX_CANDIDATES {
      QueryExact(cover, limit, s, full, k, 0);
      var (t, found) := Query(cover, limit, s, full, k, 0);
      if !found && !t.exhausted {
        SizeSearchExact(cover, limit, t, full, k + 1);
      }
    }
  }

  /** No size below the starting one can work: the packed sets are disjoint and non-empty. */
  lemma StartBelow(inp: Input, r: Reduced)
    requires Live(inp, r) && r.sets != []
    ensures 0 < StartSize(r.sets) <= MAX_CANDIDATES
    ensures !Feasible(CoverOf(r), FullOf(r), StartSize(r.sets) - 1, 0)
  {
    FullNarrow(r);
    BoundPositive(r.sets);
    ValidFits(inp);
    CandidateWidth(inp, r.candidates);
    FullFeasible(inp, r);
    var all: set<nat> :| CoverWithin(CoverOf(r), all, FullOf(r), |r.candidates|, 0);
    PackedBelow(r, all);
    forall s: set<nat> | Drawn(CoverOf(r), s, 0) && CoversAll(CoverOf(r), s, FullOf(r))
      ensures StartSize(r.sets) <= |s|
    {
      PackedBelow(r, s);
    }
  }

  lemma PackedBelow(r: Reduced, s: set<nat>)
    requires Masked(r) && Drawn(CoverOf(r), s, 0) && CoversAll(CoverOf(r), s, FullOf(r))
    ensures DisjointBound(r.sets) <= |s|
  {
    forall j | 0 <= j < |r.sets|
      ensures Bits(r.sets[j]) * s != {}
    {
      assert j in FullOf(r);
      MetByPosition(r, s, j);
    }
    BoundBelow(r.sets, s);
  }

  /** For a valid input the size search ends with the optimum, or with the budget spent. */
  lemma SearchedExact(inp: Input, r: Reduced)
    requires Live(inp, r) && r.sets != []
    ensures var (t, found, best) := Searched(inp, r);
            && Sound(CoverOf(r), inp.nodeBudget, t)
            && (found ==> Optimum(CoverOf(r), FullOf(r), best) && !t.exhausted)
            && (!found ==> t.exhausted)
  {
    StartBelow(inp, r);
    FullNarrow(r);
    SizeSearchExact(CoverOf(r), inp.nodeBudget, FRESH, FullOf(r), StartSize(r.sets));
    ValidFits(inp);
    CandidateWidth(inp, r.candidates);
    FullFeasible(inp, r);
    FeasibleMore(CoverOf(r), FullOf(r), |r.candidates|, MAX_CANDIDATES, 0);
  }

  /** The enumeration visits the first solutions of the list, all of them unless it was cut. */
  lemma EnumeratedExact(inp: Input, r: Reduced, t: Search, best: nat)
    requires Live(inp, r) && Sound(CoverOf(r), inp.nodeBudget, t)
    ensures var w := Enumerated(inp, r, t, best);
            var listed := Solve(CoverOf(r), FullOf(r), best, 0);
            && |w.visited| <= |listed| && w.visited == listed[..|w.visited|]
            && |w.visited| <= inp.maxSolutions
            && (!w.truncated ==> |w.visited| == |listed| && |listed| < inp.maxSolutions)
            && Counted(inp.nodeBudget, w.search)
            && (w.truncated ==> Cut(RunLimits(inp, t.nodes), w))
  {
    FullNarrow(r);
    hide IsReduction;
    FromTheStart(CoverOf(r), RunLimits(inp, t.nodes), t, FullOf(r), best);
  }

  /** The greedy list is an ascending hitting set. */
  lemma GreedyHits(inp: Input, r: Reduced)
    requires Live(inp, r)
    ensures var g := GreedyList(r.candidates, CoverOf(r), FullOf(r));
            Ascending(g) && HittingSet(inp, Elems(g)) && |g| == |Greedy(CoverOf(r), FullOf(r))|
  {
    var g := Greedy(CoverOf(r), FullOf(r));
    GreedyCoversFull(inp, r);
    GreedyDistinct(CoverOf(r), FullOf(r));
    FullNarrow(r);
    CoverIsHitting(inp, r, Elems(g));
    NamedElems(r.candidates, g);
    SortUniqueSpec(Named(r.candidates, g));
    NamedCount(r.candidates, g);
  }

  lemma GreedyCoversFull(inp: Input, r: Reduced)
    requires IsReduction(inp, r)
    ensures CoversAll(CoverOf(r), Elems(Greedy(CoverOf(r), FullOf(r))), FullOf(r))
  {
    FullFeasible(inp, r);
    var s: set<nat> :| CoverWithin(CoverOf(r), s, FullOf(r), |r.candidates|, 0);
    GreedyCovers(CoverOf(r), FullOf(r), s);
  }

  lemma NamedCount(candidates: seq<nat>, g: seq<nat>)
    requires Ascending(candidates) && Distinct(g) && forall k :: 0 <= k < |g| ==> g[k] < |candidates|
    ensures |SortUnique(Named(candidates, g))| == |g|
  {
    var named := Named(candidates, g);
    forall i, j | 0 <= i < j < |named|
      ensures named[i] != named[j]
    {
      AscendingDiffers(candidates, g[i], g[j]);
    }
    SortUniqueSpec(named);
    AscendingCount(SortUnique(named));
    DistinctCount(named);
  }

  lemma AscendingDiffers(list: seq<nat>, a: nat, b: nat)
    requires Ascending(list) && a < |list| && b < |list| && a != b
    ensures list[a] != list[b]
  {}

  /** The bracket around the optimum. */
  lemma Bracket(inp: Input, r: Reduced, h: set<nat>)
    requires Live(inp, r) && MinimumHittingSet(inp, h)
    ensures DisjointBound(r.sets) <= |h| <= |GreedyList(r.candidates, CoverOf(r), FullOf(r))|
  {
    var s := HittingHasPositions(inp, r, h);
    FullNarrow(r);
    CoverIsHitting(inp, r, Elems(s));
    AscendingCount(s);
    PackedBelow(r, Elems(s));
    GreedyHits(inp, r);
    AscendingCount(GreedyList(r.candidates, CoverOf(r), FullOf(r)));
  }

  // ---- the guarantees of a result ----

  /** A proven optimum is the canonical answer and its size is the one reported. */
  ghost predicate OptimalityHonest(inp: Input, out: Result) {
    out.optimalityProven ==> CanonicalAnswer(inp, out.elements) && |out.elements| == out.optimalSize
  }

  /** The count is exact when the enumeration was not cut, and never too large. */
  ghost predicate CountHonest(inp: Input, out: Result) {
    out.optimalityProven ==> exists sols ::
      && AllMinima(inp, sols)
      && 0 < out.solutionsFound <= |sols|
      && (!out.solutionsTruncated ==> out.solutionsFound == |sols|)
  }

  lemma {:induction false} AnswerOptimal(inp: Input, r: Reduced)
    requires Live(inp, r) && r.sets != []
    ensures var out := Answer(inp, r);
            && OptimalityHonest(inp, out) && CountHonest(inp, out)
            && out.status != ProvenInfeasible && out.status != InvalidInput
  {
    hide IsReduction, HittingSet;
    SearchedExact(inp, r);
    var (t, found, best) := Searched(inp, r);
    if found {
      EnumeratedExact(inp, r, t, best);
      MinimaExact(inp, r, best);
      FirstIsCanonical(inp, Minima(r, best));
    }
  }

  /** Nothing failed: the empty list is the only minimum. */
  lemma NothingToHit(inp: Input, r: Reduced)
    requires Live(inp, r) && r.sets == []
    ensures AllMinima(inp, [[]]) && CanonicalAnswer(inp, [])
  {
    FullNarrow(r);
    var sols: seq<seq<nat>> := [[]];
    CoverIsHitting(inp, r, {});
    assert NamedSet(r.candidates, {}) == {};
    var empty: seq<nat> := [];
    assert Elems(empty) == {};
    assert MinimumHittingSet(inp, Elems(empty));
    forall t: seq<nat> | Ascending(t) && MinimumHittingSet(inp, Elems(t))
      ensures t == []
    {
      AscendingCount(t);
      assert |Elems(t)| <= |Elems(empty)|;
    }
    assert sols[0] == [];
  }

  /** Whenever optimality is claimed, the list is the lexicographically first minimum hitting set. */
  lemma LocalizeOptimal(inp: Input, r: Reduced)
    requires ValidInput(inp) && IsReduction(inp, r)
    ensures OptimalityHonest(inp, Answer(inp, r)) && CountHonest(inp, Answer(inp, r))
  {
    if !r.hasEmptySet {
      if r.sets == [] {
        NothingToHit(inp, r);
      } else {
        AnswerOptimal(inp, r);
      }
    }
  }

  /** Infeasibility is reported exactly when no hitting set exists, with the first empty set as witness. */
  lemma LocalizeInfeasible(inp: Input, r: Reduced)
    requires ValidInput(inp) && IsReduction(inp, r)
    ensures var out := Answer(inp, r);
            && (out.status == ProvenInfeasible <==> !exists h :: HittingSet(inp, h))
            && (out.status == ProvenInfeasible <==> out.hasInfeasibleWitness)
            && (out.status == ProvenInfeasible ==>
                  out.infeasibleWitness < |inp.failureSets| && Trace(inp, out.infeasibleWitness) == {})
  {
    if r.hasEmptySet {
      NoHittingSet(inp, r.emptySetOrigin);
    } else {
      AnswerFeasible(inp, r);
    }
  }

  lemma NoHittingSet(inp: Input, i: nat)
    requires i < |inp.failureSets| && Trace(inp, i) == {}
    ensures !exists h :: HittingSet(inp, h)
  {
    forall h
      ensures !HittingSet(inp, h)
    {
      EmptyTraceInfeasible(inp, i, h);
    }
  }

  lemma AnswerFeasible(inp: Input, r: Reduced)
    requires Live(inp, r)
    ensures Answer(inp, r).status != ProvenInfeasible && !Answer(inp, r).hasInfeasibleWitness
    ensures exists h :: HittingSet(inp, h)
  {
    hide IsReduction, HittingSet;
    GreedyHits(inp, r);
  }

  lemma AnswerUniqueShape(inp: Input, r: Reduced)
    requires Answer(inp, r).optimalityProven && Answer(inp, r).uniquenessProven
    ensures !r.hasEmptySet
    ensures r.sets == [] ==> Answer(inp, r).elements == []
    ensures !Answer(inp, r).solutionsTruncated && Answer(inp, r).solutionsFound == 1
  {
    hide Query, SizeSearch, Run, GreedyList;
  }

  /** Uniqueness is claimed only for the one minimum hitting set there is. */
  lemma LocalizeUnique(inp: Input, r: Reduced, t: seq<nat>)
    requires ValidInput(inp) && IsReduction(inp, r)
    requires Answer(inp, r).optimalityProven && Answer(inp, r).uniquenessProven
    requires Ascending(t) && MinimumHittingSet(inp, Elems(t))
    ensures t == Answer(inp, r).elements
  {
    hide IsReduction, MinimumHittingSet, ValidInput, Answer, CountHonest, OptimalityHonest;
    AnswerUniqueShape(inp, r);
    LocalizeOptimal(inp, r);
    OneMinimum(inp, Answer(inp, r), t);
  }

  lemma OneMinimum(inp: Input, out: Result, t: seq<nat>)
    requires OptimalityHonest(inp, out) && CountHonest(inp, out)
    requires out.optimalityProven && !out.solutionsTruncated && out.solutionsFound == 1
    requires Ascending(t) && MinimumHittingSet(inp, Elems(t))
    ensures t == out.elements
  {
    hide MinimumHittingSet;
    var sols :| AllMinima(inp, sols) && 0 < out.solutionsFound <= |sols| &&
                (!out.solutionsTruncated ==> out.solutionsFound == |sols|);
    assert out.elements in sols && t in sols;
  }

  /** Ambiguity is claimed only when a second minimum hitting set exists. */
  lemma LocalizeAmbiguous(inp: Input, r: Reduced) returns (t: seq<nat>)
    requires ValidInput(inp) && IsReduction(inp, r) && Answer(inp, r).status == Ambiguous
    ensures Ascending(t) && MinimumHittingSet(inp, Elems(t)) && t != Answer(inp, r).elements
  {
    hide IsReduction, MinimumHittingSet;
    var out := Answer(inp, r);
    LocalizeOptimal(inp, r);
    var sols :| AllMinima(inp, sols) && 0 < out.solutionsFound <= |sols| &&
                (!out.solutionsTruncated ==> out.solutionsFound == |sols|);
    assert |sols| > 1;
    assert sols[0] in sols && sols[1] in sols;
    LexIrreflexive(sols[0]);
    t := if sols[0] == out.elements then sols[1] else sols[0];
  }

  /** One of the bounded counters passed its bound: oracle nodes or enumeration nodes. */
  predicate BudgetSpent(inp: Input, r: Reduced) {
    var (t, found, best) := Searched(inp, r);
    if !found then t.nodes > inp.nodeBudget
    else
      var w := Enumerated(inp, r, t, best);
      w.search.nodes > inp.nodeBudget || w.nodes > RemainingBudget(inp.nodeBudget, t.nodes)
  }

  /** Without a proof the result is labelled so, still hits everything, and the budget was spent. */
  lemma LocalizeIndeterminate(inp: Input, r: Reduced)
    requires ValidInput(inp) && IsReduction(inp, r) && !r.hasEmptySet
    ensures var out := Answer(inp, r);
            && (out.status == Indeterminate <==> !out.optimalityProven)
            && Ascending(out.elements) && HittingSet(inp, Elems(out.elements))
            && (out.status == Indeterminate ==> BudgetSpent(inp, r))
  {
    hide IsReduction, HittingSet;
    var out := Answer(inp, r);
    GreedyHits(inp, r);
    LocalizeOptimal(inp, r);
    if r.sets != [] {
      SearchedExact(inp, r);
      var (t, found, best) := Searched(inp, r);
      if found {
        EnumeratedExact(inp, r, t, best);
        SolveNonEmpty(CoverOf(r), FullOf(r), best);
      }
    }
  }

  // ---- the methods ----

  method GreedyLocalization(inp: Input) returns (chosen: seq<nat>, ghost r: Reduced)
    requires FitsWord(inp)
    ensures IsReduction(inp, r) && chosen == GreedyList(r.candidates, Sets(r.cover), Bits(r.fullMask))
  {
    var red := Reduce(inp);
    r := red;
    assert |red.cover| == |red.candidates|;
    var list := GreedyChoices(red.candidates, red.cover, red.fullMask);
    chosen := SortUnique(list);
  }

  /** Takes the best candidate until nothing remains, or nothing helps. */
  method GreedyChoices(candidates: seq<nat>, cover: seq<bv64>, full: bv64) returns (list: seq<nat>)
    requires |cover| == |candidates|
    ensures list == Named(candidates, Greedy(Sets(cover), Bits(full)))
  {
    hide BestFrom, Scan;
    list := [];
    ghost var picked: seq<nat> := [];
    var remaining := full;
    assert picked + Greedy(Sets(cover), Bits(full)) == Greedy(Sets(cover), Bits(full));
    while remaining != 0
      invariant list == Named(candidates, picked)
      invariant picked + Greedy(Sets(cover), Bits(remaining)) == Greedy(Sets(cover), Bits(full))
      decreases |Bits(remaining)|
    {
      BitsZero(remaining);
      var best, count := BestWord(cover, remaining);
      BestFromSpec(Sets(cover), Bits(remaining), 0, |cover|, 0);
      if best >= |candidates| || count == 0 {
        assert picked + [] == picked;
        return;
      }
      Shrinks(Sets(cover)[best], Bits(remaining));
      BitsWithout(remaining, cover[best]);
      GreedyStep(Sets(cover), Bits(remaining), picked);
      list := list + [candidates[best]];
      picked := picked + [best];
      remaining := Without(remaining, cover[best]);
    }
    BitsZero(remaining);
    assert picked + [] == picked;
  }

  lemma GreedyStep(cover: seq<set<nat>>, rem: set<nat>, picked: seq<nat>)
    requires rem != {} && Best(cover, rem).0 < |cover| && Best(cover, rem).1 > 0
    ensures picked + Greedy(cover, rem) ==
            (picked + [Best(cover, rem).0]) + Greedy(cover, rem - cover[Best(cover, rem).0])
  {}

  method BestWord(cover: seq<bv64>, remaining: bv64) returns (best: nat, count: nat)
    ensures (best, count) == Best(Sets(cover), Bits(remaining))
  {
    best, count := |cover|, 0;
    for c := 0 to |cover|
      invariant BestFrom(Sets(cover), Bits(remaining), c, best, count) == Best(Sets(cover), Bits(remaining))
    {
      var n := CommonCount(cover[c], remaining);
      if n > count {
        best, count := c, n;
      }
    }
  }

  method CommonCount(a: bv64, b: bv64) returns (n: nat)
    ensures n == |Bits(a) * Bits(b)|
  {
    BitsAnd(a, b);
    n := Popcount(a & b);
  }

  /** Two ways of writing the same problem have the same result, node counts included, except which empty
      set witnesses infeasibility. */
  lemma AnswerCanonical(a: Input, b: Input, ra: Reduced, rb: Reduced)
    requires SameProblem(a, b) && IsReduction(a, ra) && IsReduction(b, rb)
    ensures Answer(a, ra).(infeasibleWitness := 0) == Answer(b, rb).(infeasibleWitness := 0)
    ensures !ra.hasEmptySet ==> Answer(a, ra) == Answer(b, rb)
  {
    ReductionCanonical(a, b, ra, rb);
    if !ra.hasEmptySet {
      AnswerDepends(a, b, ra, rb);
    }
  }

  /** The result reads the two budgets and, of the reduced system, everything but the origins. */
  lemma AnswerDepends(a: Input, b: Input, ra: Reduced, rb: Reduced)
    requires a.nodeBudget == b.nodeBudget && a.maxSolutions == b.maxSolutions
    requires !ra.hasEmptySet && !rb.hasEmptySet
    requires ra.candidates == rb.candidates && ra.sets == rb.sets && ra.cover == rb.cover && ra.fullMask == rb.fullMask
    ensures Answer(a, ra) == Answer(b, rb)
  {
    hide Run, SizeSearch, GreedyList, StartSize, Named, Bits;
    assert Searched(a, ra) == Searched(b, rb);
    var (t, found, best) := Searched(a, ra);
    assert Enumerated(a, ra, t, best) == Enumerated(b, rb, t, best);
  }

  /** The exact solver. The ghost result is the reduction the answer is read off. */
  method Localize(inp: Input) returns (out: Result, ghost r: Reduced)
    ensures !ValidInput(inp) ==> out == BLANK.(status := InvalidInput, reason := LocalizationInvalid)
    ensures ValidInput(inp) ==> IsReduction(inp, r) && out == Answer(inp, r)
  {
    out := BLANK;
    r := Reduced([], [], [], [], [], 0, 0, false, 0);
    var v := Validate(inp);
    if v != Ok {
      out := out.(status := InvalidInput, reason := LocalizationInvalid);
      return;
    }
    ValidFits(inp);
    var red := Reduce(inp);
    r := red;
    if red.hasEmptySet {
      out := out.(status := ProvenInfeasible, hasInfeasibleWitness := true,
                  infeasibleWitness := red.emptySetOrigin, reason := LocalizationInfeasible);
      return;
    }
    if red.sets == [] {
      out := out.(status := Resolved, optimalityProven := true, uniquenessProven := true,
                  solutionsFound := 1, reason := LocalizationResolved);
      return;
    }
    assert |red.cover| == |red.candidates|;
    hide IsReduction, ValidInput;
    out := SearchAndEnumerate(inp, red);
    if out.status == Indeterminate {
      var chosen, again := GreedyLocalization(inp);
      SameAsItself(inp);
      ReductionCanonical(inp, inp, red, again);
      out := out.(elements := chosen);
    }
  }

  /** Iterative deepening from the packing bound. */
  method FindSize(inp: Input, r: Reduced) returns (oracle: FeasibilityOracle, found: bool, best: nat)
    ensures fresh(oracle) && oracle.Valid() && oracle.cover == r.cover && oracle.limit == inp.nodeBudget
    ensures (oracle.search, found, best) == Searched(inp, r)
  {
    oracle := new FeasibilityOracle(r.cover, inp.nodeBudget);
    var lb := DisjointLowerBound(r.sets);
    var k := if lb == 0 then 1 else lb;
    best, found := 0, false;
    while k <= MAX_CANDIDATES
      invariant fresh(oracle) && oracle.Valid() && oracle.cover == r.cover && oracle.limit == inp.nodeBudget
      invariant !found && best == 0
      invariant SizeSearch(Sets(r.cover), inp.nodeBudget, oracle.search, Bits(r.fullMask), k) == Searched(inp, r)
    {
      var yes := oracle.Covers(r.fullMask, k, 0);
      if yes {
        best, found := k, true;
        return;
      }
      if oracle.exhausted {
        return;
      }
      k := k + 1;
    }
  }

  method EnumerateAll(inp: Input, r: Reduced, oracle: FeasibilityOracle, best: nat) returns (en: SolutionEnumerator)
    requires oracle.Valid() && oracle.cover == r.cover && oracle.limit == inp.nodeBudget
    requires |r.cover| == |r.candidates|
    modifies oracle
    ensures en.Valid() && en.candidates == r.candidates
    ensures en.walk == old(Enumerated(inp, r, oracle.search, best))
  {
    var remaining := if inp.nodeBudget > oracle.nodes then inp.nodeBudget - oracle.nodes else 1;
    en := new SolutionEnumerator(r.candidates, oracle, inp.maxSolutions, remaining);
    en.Enumerate(r.fullMask, best, 0);
  }

  /** The body after reduction; an Indeterminate result still needs its greedy list. */
  method SearchAndEnumerate(inp: Input, r: Reduced) returns (out: Result)
    requires !r.hasEmptySet && r.sets != [] && |r.cover| == |r.candidates|
    ensures out.(elements := []) == Answer(inp, r).(elements := [])
    ensures out.status == Indeterminate
            ==> Answer(inp, r).elements == GreedyList(r.candidates, Sets(r.cover), Bits(r.fullMask))
    ensures out.status != Indeterminate ==> out == Answer(inp, r)
  {
    out := BLANK;
    var oracle, found, best := FindSize(inp, r);
    out := out.(searchNodes := oracle.nodes);
    if !found {
      out := out.(status := Indeterminate, reason := LocalizationSearchLimit);
      return;
    }
    out := out.(optimalityProven := true, optimalSize := best);
    var en := EnumerateAll(inp, r, oracle, best);
    out := out.(searchNodes := out.searchNodes + en.nodes,
                solutionsFound := en.found,
                solutionsTruncated := en.truncated,
                uniquenessProven := !en.truncated && en.found == 1);
    if en.found == 0 {
      out := out.(optimalityProven := false, status := Indeterminate, reason := LocalizationSearchLimit);
      return;
    }
    out := out.(elements := en.first,
                status := if en.found > 1 then Ambiguous else Resolved,
                reason := if en.found > 1 then LocalizationAmbiguous else LocalizationResolved);
  }
}
