/** The independent verifier of a localization result. */
module Verifier {
  import opened Words
  import opened Orders
  import opened Problem
  import opened Reduction
  import opened Covers
  import opened Oracle
  import opened Chains
  import opened Solutions
  import opened Enumerator
  import opened Bridge
  import opened Localizer
  import opened Reference

  datatype OptimalityCheck = NotRequested | OracleCheck | ExhaustiveReference | Unavailable

  datatype Report = Report(
    valid: bool,
    coversAll: bool,
    subsetOfCandidates: bool,
    canonicalOrder: bool,
    sizeMatches: bool,
    optimality: OptimalityCheck,
    optimalityConfirmed: bool)

  const REFUSED := Report(false, false, false, false, false, NotRequested, false)
  const CERTIFIED := Report(true, true, true, true, true, OracleCheck, true)

  const VERIFIER_BUDGET: nat := 4000000

  /** An ascending list of candidates. */
  ghost predicate Shape(inp: Input, elements: seq<nat>) {
    Ascending(elements) && Elems(elements) <= Candidates(inp)
  }

  ghost predicate AllHit(inp: Input, elements: seq<nat>) {
    forall i :: 0 <= i < |inp.failureSets| ==> Hits(inp.failureSets[i], Elems(elements))
  }

  predicate Agrees(ref: Result, result: Result) {
    && ref.optimalSize == result.optimalSize
    && ref.elements == result.elements
    && ((ref.status == Ambiguous) == (result.status == Ambiguous) || result.solutionsTruncated)
  }

  /** A fresh oracle refutes every size below k within the verifier's own budget. */
  ghost predicate NoSmaller(r: Reduced, k: nat) {
    k > 0 ==>
      var (t, found) := Query(CoverOf(r), VERIFIER_BUDGET, FRESH, FullOf(r), k - 1, 0);
      !found && !t.exhausted
  }

  /** The check above 18 candidates. It compares candidate positions with set positions, as the source does. */
  ghost predicate OracleConfirms(r: Reduced, result: Result) {
    FullOf(r) <= Places(r.candidates, Elems(result.elements)) && NoSmaller(r, result.optimalSize)
  }

  /** The whole report, given the reduction and what the reference solver said. */
  ghost function ReportOf(inp: Input, r: Reduced, ref: Result, result: Result): Report {
    if result.status == ProvenInfeasible then
      if result.hasInfeasibleWitness && result.infeasibleWitness < |inp.failureSets|
         && Trace(inp, result.infeasibleWitness) == {}
      then CERTIFIED else REFUSED
    else if result.status == InvalidInput || !Shape(inp, result.elements) then REFUSED
    else
      var covers := AllHit(inp, result.elements);
      var base := Report(covers, covers, true, true,
                         !result.optimalityProven || result.optimalSize == |result.elements|,
                         NotRequested, false);
      if !result.optimalityProven then base
      else if |r.candidates| <= REFERENCE_MAX_CANDIDATES then
        if ref.status == Indeterminate then base.(optimality := Unavailable)
        else base.(optimality := ExhaustiveReference, optimalityConfirmed := Agrees(ref, result),
                   valid := covers && Agrees(ref, result))
      else base.(optimality := OracleCheck, optimalityConfirmed := OracleConfirms(r, result),
                 valid := covers && OracleConfirms(r, result))
  }

  // ---- what acceptance means ----

  lemma ShapeHits(inp: Input, elements: seq<nat>)
    requires Shape(inp, elements)
    ensures HittingSet(inp, Elems(elements)) <==> AllHit(inp, elements)
  {}

  /** The reference result names the optimum and the canonical answer. */
  lemma ReferenceTruth(inp: Input, r: Reduced, ref: Result)
    requires Live(inp, r) && |r.candidates| <= REFERENCE_MAX_CANDIDATES
    requires ReferenceResult(inp, r, REFERENCE_MAX_CANDIDATES, ref)
    ensures ref.status == Resolved || ref.status == Ambiguous
    ensures CanonicalAnswer(inp, ref.elements) && |ref.elements| == ref.optimalSize
  {
    if r.sets == [] {
      NothingToHit(inp, r);
    } else {
      var k :| Optimum(CoverOf(r), FullOf(r), k) && |Minima(r, k)| > 0 && inp.maxSolutions > 0
               && ref == ReferenceFound(inp, k, Minima(r, k));
      hide IsReduction, Optimum;
      MinimaExact(inp, r, k);
      FirstIsCanonical(inp, Minima(r, k));
    }
  }

  /** An accepted certificate is right: nothing hits every failure set. */
  lemma VerifierSoundInfeasible(inp: Input, r: Reduced, ref: Result, result: Result)
    requires result.status == ProvenInfeasible && ReportOf(inp, r, ref, result).valid
    ensures !exists h :: HittingSet(inp, h)
  {
    NoHittingSet(inp, result.infeasibleWitness);
  }

  /** An accepted list hits everything, with or without a claim of optimality. */
  lemma VerifierSoundCover(inp: Input, r: Reduced, ref: Result, result: Result)
    requires result.status != ProvenInfeasible && ReportOf(inp, r, ref, result).valid
    ensures Ascending(result.elements) && HittingSet(inp, Elems(result.elements))
  {
    ShapeHits(inp, result.elements);
  }

  /** Up to 18 candidates an accepted claim of optimality is the canonical answer. */
  lemma VerifierSoundSmall(inp: Input, r: Reduced, ref: Result, result: Result)
    requires Live(inp, r) && |r.candidates| <= REFERENCE_MAX_CANDIDATES
    requires ReferenceResult(inp, r, REFERENCE_MAX_CANDIDATES, ref)
    requires result.status != ProvenInfeasible && result.optimalityProven
    requires ReportOf(inp, r, ref, result).valid
    ensures CanonicalAnswer(inp, result.elements) && result.optimalSize == |result.elements|
  {
    hide ReportOf, CanonicalAnswer, IsReduction, ValidInput, ReferenceResult;
    ReferenceTruth(inp, r, ref);
    AcceptedSmall(inp, r, ref, result);
  }

  /** Up to 18 candidates acceptance of a claim is agreement with the reference. */
  lemma AcceptedSmall(inp: Input, r: Reduced, ref: Result, result: Result)
    requires |r.candidates| <= REFERENCE_MAX_CANDIDATES && ref.status != Indeterminate
    requires result.status != ProvenInfeasible && result.optimalityProven
    requires ReportOf(inp, r, ref, result).valid
    ensures Agrees(ref, result)
  {
    hide Shape, AllHit, Agrees, OracleConfirms;
  }

  /** Up to 18 candidates a well-shaped hitting list is accepted when its claim, if any, agrees with the reference. */
  lemma SmallAccepted(inp: Input, r: Reduced, ref: Result, result: Result)
    requires |r.candidates| <= REFERENCE_MAX_CANDIDATES
    requires result.status != ProvenInfeasible && result.status != InvalidInput
    requires Shape(inp, result.elements) && AllHit(inp, result.elements)
    requires result.optimalityProven ==> Agrees(ref, result)
    ensures ReportOf(inp, r, ref, result).valid
  {
    hide Shape, AllHit, Agrees, OracleConfirms;
  }

  /** A size refuted by the oracle is too small for any hitting set. */
  lemma NoSmallerBound(inp: Input, r: Reduced, k: nat, h: set<nat>)
    requires Live(inp, r) && NoSmaller(r, k) && HittingSet(inp, h)
    ensures k <= |h|
  {
    hide IsReduction, HittingSet, ValidInput, NoSmaller, Feasible, Narrow;
    if k > 0 {
      LiveNarrow(inp, r);
      HittingFeasible(inp, r, h);
      NoSmallerRefutes(r, k);
      if |h| < k {
        FeasibleMore(CoverOf(r), FullOf(r), |h|, k - 1, 0);
      }
    }
  }

  lemma NoSmallerRefutes(r: Reduced, k: nat)
    requires k > 0 && NoSmaller(r, k) && Narrow(FullOf(r))
    ensures !Feasible(CoverOf(r), FullOf(r), k - 1, 0)
  {
    hide Feasible;
    QueryExact(CoverOf(r), VERIFIER_BUDGET, FRESH, FullOf(r), k - 1, 0);
  }

  lemma HittingFeasible(inp: Input, r: Reduced, h: set<nat>)
    requires Live(inp, r) && HittingSet(inp, h)
    ensures Feasible(CoverOf(r), FullOf(r), |h|, 0)
  {
    FullNarrow(r);
    var s := HittingHasPositions(inp, r, h);
    CoverIsHitting(inp, r, Elems(s));
    AscendingCount(s);
    assert CoverWithin(CoverOf(r), Elems(s), FullOf(r), |h|, 0);
  }

  /** Above 18 candidates an accepted claim is a true minimum exactly when the separate size check agrees. */
  lemma VerifierSoundLarge(inp: Input, r: Reduced, ref: Result, result: Result)
    requires Live(inp, r) && |r.candidates| > REFERENCE_MAX_CANDIDATES
    requires result.status != ProvenInfeasible && result.optimalityProven
    requires ReportOf(inp, r, ref, result).valid
    ensures MinimumHittingSet(inp, Elems(result.elements)) && |result.elements| == result.optimalSize
            <==> ReportOf(inp, r, ref, result).sizeMatches
  {
    VerifierSoundCover(inp, r, ref, result);
    AscendingCount(result.elements);
    hide IsReduction, HittingSet;
    forall g | HittingSet(inp, g)
      ensures result.optimalSize <= |g|
    {
      NoSmallerBound(inp, r, result.optimalSize, g);
    }
  }

  // ---- what the solver's own results get ----

  /** Up to 18 candidates every result of the solver is accepted. */
  lemma VerifierComplete(inp: Input, r: Reduced, ref: Result)
    requires ValidInput(inp) && IsReduction(inp, r) && |r.candidates| <= REFERENCE_MAX_CANDIDATES
    requires ReferenceResult(inp, r, REFERENCE_MAX_CANDIDATES, ref)
    ensures ReportOf(inp, r, ref, Answer(inp, r)).valid
  {
    if r.hasEmptySet {
      LocalizeInfeasible(inp, r);
    } else {
      CompleteLive(inp, r, ref);
    }
  }

  lemma CompleteLive(inp: Input, r: Reduced, ref: Result)
    requires Live(inp, r) && |r.candidates| <= REFERENCE_MAX_CANDIDATES
    requires ReferenceResult(inp, r, REFERENCE_MAX_CANDIDATES, ref)
    ensures ReportOf(inp, r, ref, Answer(inp, r)).valid
  {
    hide IsReduction, HittingSet, AllHit, Shape, ReportOf, ReferenceResult, ValidInput, Answer, Agrees;
    var out := Answer(inp, r);
    LocalizeIndeterminate(inp, r);
    AnswerFeasible(inp, r);
    HittingShape(inp, out.elements);
    AnswerNotInvalid(inp, r);
    if out.optimalityProven {
      AnswerAgrees(inp, r, ref);
    }
    SmallAccepted(inp, r, ref, out);
  }

  lemma AnswerNotInvalid(inp: Input, r: Reduced)
    ensures Answer(inp, r).status != InvalidInput
  {
    hide SizeSearch, Run, GreedyList;
  }

  lemma HittingShape(inp: Input, elements: seq<nat>)
    requires Ascending(elements) && HittingSet(inp, Elems(elements))
    ensures Shape(inp, elements) && AllHit(inp, elements)
  {}

  /** The reference solver and the exact solver tell the same story. */
  lemma AnswerAgrees(inp: Input, r: Reduced, ref: Result)
    requires Live(inp, r) && |r.candidates| <= REFERENCE_MAX_CANDIDATES
    requires ReferenceResult(inp, r, REFERENCE_MAX_CANDIDATES, ref)
    requires Answer(inp, r).optimalityProven
    ensures Agrees(ref, Answer(inp, r)) && ref.status != Indeterminate
  {
    hide IsReduction, Optimum, ValidInput, Searched, Enumerated, Solve, GreedyList, Cut, Counted;
    if r.sets != [] {
      var k :| Optimum(CoverOf(r), FullOf(r), k) && |Minima(r, k)| > 0 && inp.maxSolutions > 0
               && ref == ReferenceFound(inp, k, Minima(r, k));
      SearchedExact(inp, r);
      var (t, found, best) := Searched(inp, r);
      EnumeratedExact(inp, r, t, best);
      if found {
        OptimumUnique(CoverOf(r), FullOf(r), k, best);
        SameStory(inp, r, k, Enumerated(inp, r, t, best), ref);
      }
    }
  }

  /** The first solution visited and the first minimum found are one, and so is the verdict on ambiguity unless cut. */
  lemma SameStory(inp: Input, r: Reduced, k: nat, w: Walk, ref: Result)
    requires |Minima(r, k)| > 0 && inp.maxSolutions > 0 && ref == ReferenceFound(inp, k, Minima(r, k))
    requires var listed := Solve(CoverOf(r), FullOf(r), k, 0);
             && |w.visited| <= |listed| && w.visited == listed[..|w.visited|]
             && (!w.truncated ==> |w.visited| == |listed| && |listed| < inp.maxSolutions)
    ensures w.visited != [] ==>
              && ref.elements == Named(r.candidates, w.visited[0]) && ref.optimalSize == k
                 && ref.status != Indeterminate
              && ((ref.status == Ambiguous) == (|w.visited| > 1) || w.truncated)
  {
    hide Solve, CoverOf, FullOf;
  }

  // ---- above 18 candidates ----

  /** A minimum has no more elements than there are kept sets. */
  lemma MinimumAtMostSets(inp: Input, r: Reduced, k: nat)
    requires Live(inp, r) && Optimum(CoverOf(r), FullOf(r), k)
    ensures k <= |r.rawSets|
  {
    forall j | j in FullOf(r)
      ensures Met(CoverOf(r), Below(|CoverOf(r)|), j)
    {
      FullMet(inp, r, j);
    }
    FeasibleEach(CoverOf(r), FullOf(r));
    assert |FullOf(r)| == |r.rawSets|;
    hide IsReduction, ValidInput, Feasible;
    if |r.rawSets| < k {
      FeasibleMore(CoverOf(r), FullOf(r), |r.rawSets|, k - 1, 0);
      OptimumRefutes(CoverOf(r), FullOf(r), k);
    }
  }

  lemma FullMet(inp: Input, r: Reduced, j: nat)
    requires IsReduction(inp, r) && j in FullOf(r)
    ensures Met(CoverOf(r), Below(|CoverOf(r)|), j)
  {
    FullNarrow(r);
    AllNamed(inp, r);
    MetByElement(r, Below(|r.candidates|), j);
    KeptHasCandidate(inp, r, j);
  }

  lemma OptimumRefutes(cover: seq<set<nat>>, mask: set<nat>, k: nat)
    requires Optimum(cover, mask, k) && k > 0
    ensures !Feasible(cover, mask, k - 1, 0)
  {}

  lemma FirstFits(candidates: seq<nat>, t: set<nat>, m: nat)
    requires Below(m) <= Places(candidates, t)
    ensures m <= |candidates| && forall i :: 0 <= i < m ==> candidates[i] in t
  {
    forall i | 0 <= i < m
      ensures i < |candidates| && candidates[i] in t
    {
      assert i in Below(m);
    }
    if m > 0 {
      assert m - 1 in Below(m);
    }
  }

  /** An ascending list of at most m elements that holds the first m of an ascending list is those m. */
  lemma FirstElements(candidates: seq<nat>, elements: seq<nat>, m: nat)
    requires Ascending(candidates) && Ascending(elements) && |elements| <= m <= |candidates|
    requires forall i :: 0 <= i < m ==> candidates[i] in Elems(elements)
    ensures elements == candidates[..m]
  {
    var f := candidates[..m];
    assert Elems(f) <= Elems(elements);
    AscendingCount(f);
    AscendingCount(elements);
    if Elems(f) != Elems(elements) {
      SubsetSmaller(Elems(f), Elems(elements));
    }
    AscendingUnique(f, elements);
  }

  /** Above 18 candidates the covering test passes a minimum exactly when it is the first candidates,
      as many as there are kept sets. */
  lemma CoveringTestExact(inp: Input, r: Reduced, k: nat, elements: seq<nat>)
    requires Live(inp, r) && Optimum(CoverOf(r), FullOf(r), k)
    requires Ascending(elements) && |elements| == k
    ensures FullOf(r) <= Places(r.candidates, Elems(elements)) <==>
            |r.rawSets| <= |r.candidates| && elements == r.candidates[..|r.rawSets|]
  {
    MinimumAtMostSets(inp, r, k);
    if FullOf(r) <= Places(r.candidates, Elems(elements)) {
      FirstFits(r.candidates, Elems(elements), |r.rawSets|);
      FirstElements(r.candidates, elements, |r.rawSets|);
    }
  }

  /** Above 18 candidates a proven answer is accepted exactly when it is the first candidates, as many
      as there are kept sets. */
  lemma VerifierLargeExact(inp: Input, r: Reduced, ref: Result)
    requires Live(inp, r) && r.sets != [] && |r.candidates| > REFERENCE_MAX_CANDIDATES
    requires Answer(inp, r).optimalityProven
    ensures var out := Answer(inp, r);
            ReportOf(inp, r, ref, out).valid <==>
            |r.rawSets| <= |r.candidates| && out.elements == r.candidates[..|r.rawSets|]
  {
    hide IsReduction, ValidInput, HittingSet, Query, Optimum, Answer, NoSmaller, Shape, AllHit, Bits, Places, ReportOf;
    var out := Answer(inp, r);
    ProvenAnswer(inp, r);
    LargeReport(inp, r, ref, out);
    CoveringTestExact(inp, r, out.optimalSize, out.elements);
    if out.optimalSize == |r.rawSets| {
      OwnOracleFits(inp, r);
    }
  }

  /**
   * When every kept set needs an element of its own, the verifier's own oracle refutes the smaller size within one node
   * and one for each candidate, far below its budget.
   */
  lemma OwnOracleFits(inp: Input, r: Reduced)
    requires Live(inp, r) && Optimum(CoverOf(r), FullOf(r), |r.rawSets|)
    ensures NoSmaller(r, |r.rawSets|)
    ensures |r.rawSets| > 0 ==>
              Query(CoverOf(r), VERIFIER_BUDGET, FRESH, FullOf(r), |r.rawSets| - 1, 0).0.nodes <= |r.candidates| + 1
  {
    hide IsReduction, ValidInput, Query, Optimum, Met, CoverOf, FullOf, Below, Lone, NoSmaller;
    ReductionWidth(inp, r);
    EachMet(inp, r);
    FullCount(r, |r.rawSets|);
    OptimumLone(CoverOf(r), FullOf(r));
    OwnQuery(r);
  }

  lemma EachMet(inp: Input, r: Reduced)
    requires IsReduction(inp, r)
    ensures forall j :: j in FullOf(r) ==> Met(CoverOf(r), Below(|CoverOf(r)|), j)
  {
    hide IsReduction, Met, CoverOf, FullOf, Below;
    forall j | j in FullOf(r)
      ensures Met(CoverOf(r), Below(|CoverOf(r)|), j)
    {
      FullMet(inp, r, j);
    }
  }

  lemma FullCount(r: Reduced, n: nat)
    requires FullOf(r) == Below(n)
    ensures |FullOf(r)| == n
  {
    hide FullOf;
  }

  lemma OwnQuery(r: Reduced)
    requires Lone(CoverOf(r)) && FullOf(r) == Below(|r.rawSets|) && |r.rawSets| <= 64
             && |CoverOf(r)| == |r.candidates| <= 64
    ensures NoSmaller(r, |r.rawSets|)
    ensures |r.rawSets| > 0 ==>
              Query(CoverOf(r), VERIFIER_BUDGET, FRESH, FullOf(r), |r.rawSets| - 1, 0).0.nodes <= |r.candidates| + 1
  {
    hide Query, Lone, CoverOf, FullOf;
    if |r.rawSets| > 0 {
      assert FullOf(r) == From(|r.rawSets|, 0);
      ChainFits(CoverOf(r), VERIFIER_BUDGET, |r.rawSets|);
    }
  }

  lemma ReductionWidth(inp: Input, r: Reduced)
    requires IsReduction(inp, r)
    ensures FullOf(r) == Below(|r.rawSets|) && |r.rawSets| <= 64 && |CoverOf(r)| == |r.candidates| <= 64
    ensures forall c :: 0 <= c < |CoverOf(r)| ==> CoverOf(r)[c] <= FullOf(r)
  {
    hide KeptSets;
    forall c | 0 <= c < |CoverOf(r)|
      ensures CoverOf(r)[c] <= FullOf(r)
    {
      CoverEntry(r.candidates, r.rawSets, r.cover, c);
    }
  }

  lemma LiveNarrow(inp: Input, r: Reduced)
    requires Live(inp, r)
    ensures Narrow(FullOf(r))
  {
    FullNarrow(r);
  }

  lemma LargeReport(inp: Input, r: Reduced, ref: Result, result: Result)
    requires |r.candidates| > REFERENCE_MAX_CANDIDATES && result.optimalityProven
    requires result.status == Resolved || result.status == Ambiguous
    requires Shape(inp, result.elements) && AllHit(inp, result.elements)
    ensures ReportOf(inp, r, ref, result).valid <==>
            FullOf(r) <= Places(r.candidates, Elems(result.elements)) && NoSmaller(r, result.optimalSize)
    ensures ReportOf(inp, r, ref, result).sizeMatches <==> result.optimalSize == |result.elements|
  {}

  /** What the report needs to know of a proven answer. */
  lemma ProvenAnswer(inp: Input, r: Reduced)
    requires Live(inp, r) && r.sets != [] && Answer(inp, r).optimalityProven
    ensures var out := Answer(inp, r);
            && Ascending(out.elements) && Shape(inp, out.elements) && AllHit(inp, out.elements)
            && |out.elements| == out.optimalSize > 0 && Optimum(CoverOf(r), FullOf(r), out.optimalSize)
            && (out.status == Resolved || out.status == Ambiguous)
  {
    hide IsReduction, ValidInput, HittingSet, Query, AllHit, Shape, CanonicalAnswer, Feasible, CountHonest;
    var out := Answer(inp, r);
    LocalizeIndeterminate(inp, r);
    HittingShape(inp, out.elements);
    LocalizeOptimal(inp, r);
    LiveFull(inp, r);
    InfeasibleZero(CoverOf(r), FullOf(r), 0);
    SearchedExact(inp, r);
  }

  lemma LiveFull(inp: Input, r: Reduced)
    requires Live(inp, r)
    ensures FullOf(r) == {} <==> r.sets == []
  {
    FullNarrow(r);
  }

  // ---- one failed element, no proven-healthy one ----

  ghost predicate OneFailure(inp: Input, n: nat, e: nat) {
    inp.elementCount == n && inp.provenOk == [] && inp.failureSets == [[e]] && e < n <= MAX_CANDIDATES
  }

  lemma OneFailureTrace(inp: Input, n: nat, e: nat)
    requires OneFailure(inp, n, e)
    ensures Candidates(inp) == Below(n) && Trace(inp, 0) == {e} && MinimalTrace(inp, {e})
    ensures forall t :: MinimalTrace(inp, t) ==> t == {e}
  {
    assert inp.failureSets[0] == [e];
    assert e in Trace(inp, 0);
  }

  lemma OneFailureMinimum(inp: Input, n: nat, e: nat, h: set<nat>)
    requires OneFailure(inp, n, e)
    ensures HittingSet(inp, h) <==> e in h && h <= Below(n)
    ensures MinimumHittingSet(inp, h) <==> h == {e}
  {
    OneFailureTrace(inp, n, e);
    forall g: set<nat>
      ensures HittingSet(inp, g) <==> e in g && g <= Below(n)
    {
      assert inp.failureSets[0] == [e];
      assert e in inp.failureSets[0];
    }
    forall g: set<nat> | e in g
      ensures 1 <= |g|
      ensures |g| == 1 ==> g == {e}
    {
      SubsetNoLarger({e}, g);
      if g != {e} {
        SubsetSmaller({e}, g);
      }
    }
    assert HittingSet(inp, {e});
  }

  lemma IdentityList(c: seq<nat>, n: nat)
    requires Ascending(c) && Elems(c) == Below(n)
    ensures |c| == n && forall i :: 0 <= i < n ==> c[i] == i
  {
    AscendingCount(c);
    forall i | 0 <= i < n
      ensures c[i] < n
    {
      assert c[i] in Elems(c);
    }
    forall i | 0 <= i < n
      ensures c[i] == i
    {
      CombinationLow(c, i);
      CombinationHigh(c, n, n, i);
    }
  }

  lemma OneFailureReduced(inp: Input, n: nat, e: nat, r: Reduced)
    requires OneFailure(inp, n, e) && IsReduction(inp, r)
    ensures |r.candidates| == n && (forall i :: 0 <= i < n ==> r.candidates[i] == i) && r.rawSets == [[e]]
    ensures FullOf(r) == {0}
  {
    OneFailureTrace(inp, n, e);
    IdentityList(r.candidates, n);
    var one: seq<nat> := [e];
    assert Elems(one) == {e};
    forall j | 0 <= j < |r.rawSets|
      ensures r.rawSets[j] == one
    {
      assert MinimalTrace(inp, Elems(r.rawSets[j]));
      AscendingUnique(r.rawSets[j], one);
    }
    assert MinimalTrace(inp, {e});
    LexIrreflexive(one);
    assert |r.rawSets| > 1 ==> SizeLexLess(r.rawSets[0], r.rawSets[1]);
    assert Below(1) == {0};
  }

  /** Above 18 candidates, one failed element e: the right answer is accepted only for element 0. */
  lemma OneFailureVerdict(inp: Input, n: nat, e: nat, r: Reduced, ref: Result, result: Result)
    requires OneFailure(inp, n, e) && n > REFERENCE_MAX_CANDIDATES && IsReduction(inp, r)
    requires result.status == Resolved && result.optimalityProven
    requires result.optimalSize == 1 && result.elements == [e]
    ensures CanonicalAnswer(inp, result.elements)
    ensures ReportOf(inp, r, ref, result).valid <==> e == 0
  {
    hide IsReduction, HittingSet, MinimumHittingSet, Shape, AllHit, ReportOf, NoSmaller, CanonicalAnswer;
    OneFailureReduced(inp, n, e, r);
    OneFailureCanonical(inp, n, e);
    HittingShapeOne(inp, n, e);
    LargeReport(inp, r, ref, result);
    OnePlace(r.candidates, n, e);
    OneQuery(r);
  }

  lemma OnePlace(candidates: seq<nat>, n: nat, e: nat)
    requires e < n == |candidates| && forall i :: 0 <= i < n ==> candidates[i] == i
    ensures Places(candidates, Elems([e])) == {e}
  {
    var one: seq<nat> := [e];
    assert Elems(one) == {e};
  }

  lemma OneFailureCanonical(inp: Input, n: nat, e: nat)
    requires OneFailure(inp, n, e)
    ensures CanonicalAnswer(inp, [e])
  {
    var one: seq<nat> := [e];
    assert Elems(one) == {e};
    OneFailureMinimum(inp, n, e, {e});
    forall t | Ascending(t) && MinimumHittingSet(inp, Elems(t))
      ensures t == one
    {
      OneFailureMinimum(inp, n, e, Elems(t));
      AscendingUnique(t, one);
    }
  }

  lemma HittingShapeOne(inp: Input, n: nat, e: nat)
    requires OneFailure(inp, n, e)
    ensures Shape(inp, [e]) && AllHit(inp, [e])
  {
    var one: seq<nat> := [e];
    assert Elems(one) == {e};
    OneFailureMinimum(inp, n, e, {e});
    HittingShape(inp, one);
  }

  /** With no candidates allowed the oracle refutes without counting a node. */
  lemma OneQuery(r: Reduced)
    requires FullOf(r) != {}
    ensures NoSmaller(r, 1)
  {}

  /** Above 18 candidates a list that is too long is accepted when the reported size alone is right. */
  lemma LongAnswerAccepted(inp: Input, n: nat, r: Reduced, ref: Result, result: Result)
    requires OneFailure(inp, n, 0) && n > REFERENCE_MAX_CANDIDATES && IsReduction(inp, r)
    requires result.status == Resolved && result.optimalityProven
    requires result.optimalSize == 1 && result.elements == [0, 1]
    ensures ReportOf(inp, r, ref, result).valid && !ReportOf(inp, r, ref, result).sizeMatches
    ensures !MinimumHittingSet(inp, Elems(result.elements))
  {
    hide IsReduction, MinimumHittingSet, HittingSet, Shape, AllHit, ReportOf, NoSmaller;
    OneFailureReduced(inp, n, 0, r);
    TooLong(inp, n);
    LargeReport(inp, r, ref, result);
    assert result.elements[0] in Elems(result.elements);
    OneQuery(r);
  }

  lemma TooLong(inp: Input, n: nat)
    requires OneFailure(inp, n, 0) && n > 1
    ensures Shape(inp, [0, 1]) && AllHit(inp, [0, 1]) && !MinimumHittingSet(inp, Elems([0, 1]))
  {
    var two: seq<nat> := [0, 1];
    assert Elems(two) == {0, 1};
    OneFailureMinimum(inp, n, 0, {0, 1});
    HittingShape(inp, two);
  }

  // ---- the methods ----

  method CheckShape(inp: Input, elements: seq<nat>) returns (ok: bool)
    ensures ok <==> Shape(inp, elements)
  {
    for i := 0 to |elements|
      invariant Ascending(elements[..i])
      invariant forall k :: 0 <= k < i ==> elements[k] in Candidates(inp)
    {
      var e := elements[i];
      if e >= inp.elementCount || e in inp.provenOk {
        assert e in Elems(elements) && e !in Candidates(inp);
        return false;
      }
      if i > 0 && e <= elements[i - 1] {
        assert !(elements[i - 1] < elements[i]);
        return false;
      }
    }
    assert elements[..|elements|] == elements;
    return true;
  }

  method CheckHits(inp: Input, elements: seq<nat>) returns (covers: bool)
    ensures covers <==> AllHit(inp, elements)
  {
    for i := 0 to |inp.failureSets|
      invariant forall k :: 0 <= k < i ==> Hits(inp.failureSets[k], Elems(elements))
    {
      var s, hit := inp.failureSets[i], false;
      for j := 0 to |s|
        invariant hit ==> Hits(s, Elems(elements))
        invariant !hit ==> forall k :: 0 <= k < j ==> s[k] !in elements
      {
        if s[j] in elements {
          assert s[j] in Elems(elements);
          hit := true;
          break;
        }
      }
      if !hit {
        assert !Hits(s, Elems(elements));
        return false;
      }
    }
    return true;
  }

  method CheckCertificate(inp: Input, result: Result) returns (ok: bool)
    ensures ok <==> result.hasInfeasibleWitness && result.infeasibleWitness < |inp.failureSets|
                    && Trace(inp, result.infeasibleWitness) == {}
  {
    if !result.hasInfeasibleWitness || result.infeasibleWitness >= |inp.failureSets| {
      return false;
    }
    var s := inp.failureSets[result.infeasibleWitness];
    for j := 0 to |s|
      invariant forall k :: 0 <= k < j ==> !Candidate(inp, s[k])
    {
      if s[j] < inp.elementCount && s[j] !in inp.provenOk {
        assert s[j] in Trace(inp, result.infeasibleWitness);
        return false;
      }
    }
    return true;
  }

  method CheckOracle(r: Reduced, result: Result) returns (ok: bool)
    requires Ascending(r.candidates) && |r.candidates| <= WIDTH
    ensures ok <==> OracleConfirms(r, result)
  {
    hide Query, Mirrors;
    var oracle := new FeasibilityOracle(r.cover, VERIFIER_BUDGET);
    var m := ElementsToMask(r.candidates, result.elements);
    var covers := ContainsWord(m, r.fullMask);
    var noSmaller := true;
    if result.optimalSize > 0 {
      var smaller := oracle.Covers(r.fullMask, result.optimalSize - 1, 0);
      noSmaller := !smaller && !oracle.exhausted;
    }
    ok := covers && noSmaller && !oracle.exhausted;
  }

  method ContainsWord(m: bv64, full: bv64) returns (yes: bool)
    ensures yes <==> Bits(full) <= Bits(m)
  {
    var both := m & full;
    BitsAnd(m, full);
    yes := both == full;
    if Bits(full) <= Bits(m) {
      assert Bits(both) == Bits(full);
      BitsInjective(both, full);
    }
  }

  /** The reference result does not depend on which equal set a kept set came from. */
  lemma ReferenceTransfers(inp: Input, r: Reduced, q: Reduced, maxCandidates: nat, ref: Result)
    requires IsReduction(inp, r) && IsReduction(inp, q) && ReferenceResult(inp, q, maxCandidates, ref)
    ensures ReferenceResult(inp, r, maxCandidates, ref)
  {
    SameAsItself(inp);
    ReductionCanonical(inp, inp, r, q);
    hide IsReduction, SameProblem;
    if r.hasEmptySet {
      assert r.emptySetOrigin == q.emptySetOrigin by {
        FirstEmptySame(inp, r, q);
      }
    } else {
      assert forall k :: Minima(r, k) == Minima(q, k);
    }
  }

  lemma FirstEmptySame(inp: Input, r: Reduced, q: Reduced)
    requires IsReduction(inp, r) && IsReduction(inp, q)
    ensures r.emptySetOrigin == q.emptySetOrigin
  {}

  /** Re-derives the constraints and checks a result. The ghost results are the reduction it used and
      what the reference solver said, where it was asked. */
  method VerifyLocalization(inp: Input, result: Result) returns (rep: Report, ghost r: Reduced, ghost ref: Result)
    requires FitsWord(inp) && Ascending(inp.provenOk)
    ensures IsReduction(inp, r) && rep == ReportOf(inp, r, ref, result)
    ensures ValidInput(inp) ==> ReferenceResult(inp, r, REFERENCE_MAX_CANDIDATES, ref)
  {
    var red := Reduce(inp);
    r := red;
    CandidateWidth(inp, red.candidates);
    var reference, q := ReferenceLocalize(inp, REFERENCE_MAX_CANDIDATES);
    ref := reference;
    if ValidInput(inp) {
      ReferenceTransfers(inp, red, q, REFERENCE_MAX_CANDIDATES, reference);
    }
    assert Ascending(red.candidates) && |red.candidates| <= WIDTH;
    hide IsReduction, ReferenceResult, ValidInput;
    rep := MakeReport(inp, red, reference, result);
  }

  method MakeReport(inp: Input, r: Reduced, ref: Result, result: Result) returns (rep: Report)
    requires Ascending(r.candidates) && |r.candidates| <= WIDTH
    ensures rep == ReportOf(inp, r, ref, result)
  {
    rep := REFUSED;
    if result.status == ProvenInfeasible {
      var certified := CheckCertificate(inp, result);
      if certified {
        rep := CERTIFIED;
      }
      return;
    }
    if result.status == InvalidInput {
      return;
    }
    var shape := CheckShape(inp, result.elements);
    if !shape {
      return;
    }
    var covers := CheckHits(inp, result.elements);
    rep := rep.(subsetOfCandidates := true, canonicalOrder := true, coversAll := covers, valid := covers,
                sizeMatches := !result.optimalityProven || result.optimalSize == |result.elements|);
    if result.optimalityProven {
      if |r.candidates| <= REFERENCE_MAX_CANDIDATES {
        if ref.status == Indeterminate {
          rep := rep.(optimality := Unavailable);
          return;
        }
        rep := rep.(optimality := ExhaustiveReference, optimalityConfirmed := Agrees(ref, result));
      } else {
        var confirmed := CheckOracle(r, result);
        rep := rep.(optimality := OracleCheck, optimalityConfirmed := confirmed);
      }
      if !rep.optimalityConfirmed {
        rep := rep.(valid := false);
      }
    }
  }
}
