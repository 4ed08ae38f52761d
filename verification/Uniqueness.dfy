/** What the status, the uniqueness flags and the node count of a result may be trusted for. */
module Uniqueness {
  import opened Words
  import opened Orders
  import opened Problem
  import opened Reduction
  import opened Covers
  import opened Oracle
  import opened Solutions
  import opened Enumerator
  import opened Bounds
  import opened Bridge
  import opened Localizer
  import opened Reference
  import opened Verifier

  /** No other minimum hitting set exists. */
  ghost predicate OnlyMinimum(inp: Input, s: seq<nat>) {
    forall t :: Ascending(t) && MinimumHittingSet(inp, Elems(t)) ==> t == s
  }

  lemma OnlyOfOne(inp: Input, sols: seq<seq<nat>>, s: seq<nat>)
    requires AllMinima(inp, sols) && s in sols
    ensures OnlyMinimum(inp, s) <==> |sols| == 1
  {
    hide MinimumHittingSet;
    if |sols| > 1 {
      LexIrreflexive(sols[0]);
      assert sols[0] in sols && sols[1] in sols;
    }
  }

  /** What the fields of a proven answer say of the enumeration. */
  lemma ProvenShape(inp: Input, r: Reduced)
    requires Answer(inp, r).optimalityProven
    ensures var out := Answer(inp, r);
            && !r.hasEmptySet && (out.status == Resolved || out.status == Ambiguous)
            && (out.status == Ambiguous <==> out.solutionsFound > 1)
            && (out.uniquenessProven <==> !out.solutionsTruncated && out.solutionsFound == 1)
  {
    hide SizeSearch, Run, GreedyList;
  }

  // ---- when resolved means unique ----

  /** When the enumeration was not cut, resolved is said exactly of the only minimum. */
  lemma ResolvedWhenComplete(inp: Input, r: Reduced)
    requires ValidInput(inp) && IsReduction(inp, r)
    requires Answer(inp, r).optimalityProven && !Answer(inp, r).solutionsTruncated
    ensures Answer(inp, r).status == Resolved <==> OnlyMinimum(inp, Answer(inp, r).elements)
  {
    hide ValidInput, IsReduction, Answer, MinimumHittingSet, OnlyMinimum;
    var out := Answer(inp, r);
    ProvenShape(inp, r);
    LocalizeOptimal(inp, r);
    var sols :| AllMinima(inp, sols) && 0 < out.solutionsFound <= |sols| &&
                (!out.solutionsTruncated ==> out.solutionsFound == |sols|);
    OnlyOfOne(inp, sols, out.elements);
  }

  /**
   * Asked for one solution, a proven answer is always resolved and never flagged unique, however many minima there are.
   */
  lemma ResolvedAtOne(inp: Input, r: Reduced)
    requires Live(inp, r) && r.sets != [] && inp.maxSolutions == 1 && Answer(inp, r).optimalityProven
    ensures var out := Answer(inp, r);
            out.status == Resolved && !out.uniquenessProven && out.solutionsTruncated
  {
    hide IsReduction, ValidInput, Searched, Enumerated, Solve, GreedyList, Cut, Counted, Optimum;
    SearchedExact(inp, r);
    var (t, found, best) := Searched(inp, r);
    EnumeratedExact(inp, r, t, best);
  }

  /**
   * A caller who asks for at least two solutions, and whose budgets are not spent, gets a proof, and resolved exactly
   * for the only minimum.
   */
  lemma ResolvedForCaller(inp: Input, r: Reduced)
    requires Live(inp, r) && r.sets != [] && inp.maxSolutions > 1 && !BudgetSpent(inp, r)
    ensures var out := Answer(inp, r);
            out.optimalityProven && (out.status == Resolved <==> OnlyMinimum(inp, out.elements))
  {
    hide IsReduction, ValidInput, Answer, MinimumHittingSet, OnlyMinimum, BudgetSpent, HittingSet;
    var out := Answer(inp, r);
    LocalizeIndeterminate(inp, r);
    if out.solutionsTruncated {
      CutBySolutions(inp, r);
      LocalizeOptimal(inp, r);
      var sols :| AllMinima(inp, sols) && 0 < out.solutionsFound <= |sols| &&
                  (!out.solutionsTruncated ==> out.solutionsFound == |sols|);
      OnlyOfOne(inp, sols, out.elements);
      ProvenShape(inp, r);
    } else {
      ResolvedWhenComplete(inp, r);
    }
  }

  /** With its budgets unspent a cut enumeration has found all it was asked for. */
  lemma CutBySolutions(inp: Input, r: Reduced)
    requires Live(inp, r) && r.sets != [] && Answer(inp, r).optimalityProven && Answer(inp, r).solutionsTruncated
    requires !BudgetSpent(inp, r)
    ensures Answer(inp, r).solutionsFound == inp.maxSolutions
  {
    hide IsReduction, ValidInput, Searched, Enumerated, Solve, GreedyList, Optimum;
    SearchedExact(inp, r);
    var (t, found, best) := Searched(inp, r);
    EnumeratedExact(inp, r, t, best);
  }

  // ---- the reference's flag ----

  /** The reference flags uniqueness exactly when there is one minimum or it was asked for only one. */
  lemma ReferenceFlag(inp: Input, r: Reduced, maxCandidates: nat, ref: Result) returns (sols: seq<seq<nat>>)
    requires Live(inp, r) && r.sets != [] && |r.candidates| <= maxCandidates
    requires ReferenceResult(inp, r, maxCandidates, ref)
    ensures AllMinima(inp, sols) && |sols| > 0
    ensures ref.uniquenessProven <==> |sols| == 1 || inp.maxSolutions == 1
    ensures inp.maxSolutions >= 2 ==> (ref.uniquenessProven <==> OnlyMinimum(inp, ref.elements))
  {
    var k :| Optimum(CoverOf(r), FullOf(r), k) && |Minima(r, k)| > 0 && inp.maxSolutions > 0
             && ref == ReferenceFound(inp, k, Minima(r, k));
    hide IsReduction, ValidInput, Optimum, AllMinima, OnlyMinimum;
    MinimaExact(inp, r, k);
    sols := Minima(r, k);
    OnlyOfOne(inp, sols, ref.elements);
  }

  // ---- the node count ----

  lemma {:induction false} QueryGrows(cover: seq<set<nat>>, limit: nat, s: Search, mask: set<nat>, b: nat, lo: nat)
    ensures var t := Query(cover, limit, s, mask, b, lo).0;
            t.nodes >= s.nodes && (!s.exhausted && mask != {} && b > 0 ==> t.nodes > s.nodes)
    decreases b, 1, 0
  {
    hide Branch;
    if !s.exhausted && mask != {} && b > 0 {
      BranchGrows(cover, limit, s.(nodes := s.nodes + 1), mask, b, lo, LowestFrom(mask, 0), lo);
    }
  }

  lemma {:induction false} BranchGrows(cover: seq<set<nat>>, limit: nat, s: Search, mask: set<nat>, b: nat, lo: nat,
                                       i: nat, c: nat)
    requires b > 0
    ensures Branch(cover, limit, s, mask, b, lo, i, c).0.nodes >= s.nodes
    decreases b, 0, |cover| - c
  {
    hide Query;
    if i < 64 && c < |cover| {
      var t := Query(cover, limit, s, mask - cover[c], b - 1, lo).0;
      QueryGrows(cover, limit, s, mask - cover[c], b - 1, lo);
      BranchGrows(cover, limit, t, mask, b, lo, i, c + 1);
      BranchGrows(cover, limit, s, mask, b, lo, i, c + 1);
    }
  }

  lemma {:induction false} RunGrows(cover: seq<set<nat>>, lim: Limits, w: Walk, current: seq<nat>, mask: set<nat>,
                                    b: nat, lo: nat)
    ensures Run(cover, lim, w, current, mask, b, lo).search.nodes >= w.search.nodes
    decreases b, 1, 0
  {
    hide Scan;
    if b > 0 {
      ScanGrows(cover, lim, w, current, mask, b, lo);
    }
  }

  lemma {:induction false} ScanGrows(cover: seq<set<nat>>, lim: Limits, w: Walk, current: seq<nat>, mask: set<nat>,
                                     b: nat, c: nat)
    requires b > 0
    ensures Scan(cover, lim, w, current, mask, b, c).search.nodes >= w.search.nodes
    decreases b, 0, |cover| - c
  {
    hide Run, Query;
    if c < |cover| {
      var counted := w.(nodes := w.nodes + 1);
      var t := Query(cover, lim.oracle, w.search, mask - cover[c], b - 1, c + 1).0;
      var asked := counted.(search := t);
      var deeper := Run(cover, lim, asked, current + [c], mask - cover[c], b - 1, c + 1);
      QueryGrows(cover, lim.oracle, w.search, mask - cover[c], b - 1, c + 1);
      RunGrows(cover, lim, asked, current + [c], mask - cover[c], b - 1, c + 1);
      ScanGrows(cover, lim, counted, current, mask, b, c + 1);
      ScanGrows(cover, lim, asked, current, mask, b, c + 1);
      ScanGrows(cover, lim, deeper, current, mask, b, c + 1);
    }
  }

  /** Where no one candidate suffices, a run that visits anything has asked the oracle something that cost a node. */
  lemma {:induction false} ScanSpends(cover: seq<set<nat>>, lim: Limits, w: Walk, current: seq<nat>, mask: set<nat>,
                                      b: nat, c: nat)
    requires b >= 2 && !w.search.exhausted && forall d :: 0 <= d < |cover| ==> mask - cover[d] != {}
    ensures var t := Scan(cover, lim, w, current, mask, b, c);
            |t.visited| > |w.visited| ==> t.search.nodes > w.search.nodes
    decreases |cover| - c
  {
    hide Run, Query;
    if c < |cover| {
      var counted := w.(nodes := w.nodes + 1);
      var t := Query(cover, lim.oracle, w.search, mask - cover[c], b - 1, c + 1).0;
      var asked := counted.(search := t);
      var deeper := Run(cover, lim, asked, current + [c], mask - cover[c], b - 1, c + 1);
      QueryGrows(cover, lim.oracle, w.search, mask - cover[c], b - 1, c + 1);
      RunGrows(cover, lim, asked, current + [c], mask - cover[c], b - 1, c + 1);
      ScanSpends(cover, lim, counted, current, mask, b, c + 1);
      ScanGrows(cover, lim, asked, current, mask, b, c + 1);
      ScanGrows(cover, lim, deeper, current, mask, b, c + 1);
    }
  }

  /** With one candidate allowed, enumeration asks the oracle nothing that costs a node. */
  lemma {:induction false} ScanFree(cover: seq<set<nat>>, lim: Limits, w: Walk, current: seq<nat>, mask: set<nat>,
                                    c: nat)
    ensures Scan(cover, lim, w, current, mask, 1, c).search == w.search
    decreases |cover| - c
  {
    if c < |cover| {
      var counted := w.(nodes := w.nodes + 1);
      var deeper := Run(cover, lim, counted, current + [c], mask - cover[c], 0, c + 1);
      assert deeper.search == w.search;
      assert Query(cover, lim.oracle, w.search, mask - cover[c], 0, c + 1).0 == w.search;
      ScanFree(cover, lim, counted, current, mask, c + 1);
      ScanFree(cover, lim, deeper, current, mask, c + 1);
    }
  }

  /** All nodes a call spends: those of the oracle, before and during enumeration, and those of the enumeration. */
  function AllNodes(inp: Input, r: Reduced): nat {
    var (t, found, best) := Searched(inp, r);
    if !found then t.nodes
    else
      var w := Enumerated(inp, r, t, best);
      w.search.nodes + w.nodes
  }

  lemma OneIsNotEnough(cover: seq<set<nat>>, mask: set<nat>, k: nat)
    requires Optimum(cover, mask, k) && k >= 2
    ensures forall d :: 0 <= d < |cover| ==> mask - cover[d] != {}
  {
    forall d | 0 <= d < |cover|
      ensures mask - cover[d] != {}
    {
      if mask - cover[d] == {} {
        FeasibleEmpty(cover, 0, 0);
        FeasibleTake(cover, mask, 1, 0, d);
        FeasibleMore(cover, mask, 1, k - 1, 0);
      }
    }
  }

  /**
   * The reported count is never too large; of a proven answer it is the whole one exactly when one element suffices.
   */
  lemma NodeCountExact(inp: Input, r: Reduced)
    requires Live(inp, r) && r.sets != []
    ensures Answer(inp, r).searchNodes <= AllNodes(inp, r)
    ensures Answer(inp, r).optimalityProven ==>
              (Answer(inp, r).searchNodes == AllNodes(inp, r) <==> Answer(inp, r).optimalSize == 1)
  {
    hide IsReduction, ValidInput, Searched, Run, Solve, GreedyList, Optimum, Bits;
    ReductionParts(inp, r);
    SearchedExact(inp, r);
    FullNarrow(r);
    var (t, found, best) := Searched(inp, r);
    if found {
      RunGrows(CoverOf(r), RunLimits(inp, t.nodes), Walk(t, [], false, 0), [], FullOf(r), best, 0);
      EnumerationSpends(inp, r, t, best);
    }
  }

  lemma EnumerationSpends(inp: Input, r: Reduced, t: Search, best: nat)
    requires Optimum(CoverOf(r), FullOf(r), best) && !t.exhausted && FullOf(r) != {}
    ensures var w := Enumerated(inp, r, t, best);
            && best > 0 && (best == 1 ==> w.search == t)
            && (best > 1 && w.visited != [] ==> w.search.nodes > t.nodes)
  {
    hide Scan, Optimum, Bits, Sets;
    var cover, full, lim, w := CoverOf(r), FullOf(r), RunLimits(inp, t.nodes), Walk(t, [], false, 0);
    OptimumPositive(cover, full, best);
    if best == 1 {
      ScanFree(cover, lim, w, [], full, 0);
    } else {
      OneIsNotEnough(cover, full, best);
      ScanSpends(cover, lim, w, [], full, best, 0);
    }
  }

  lemma OptimumPositive(cover: seq<set<nat>>, mask: set<nat>, k: nat)
    requires Optimum(cover, mask, k) && mask != {}
    ensures k > 0
  {
    InfeasibleZero(cover, mask, 0);
  }

  // ---- two small inputs that show it ----

  /** One failed segment of two elements: either could be at fault. */
  const EITHER := Input(2, [], [[0, 1]], 10, 1)

  /** Two failed segments of one element each: both are at fault. */
  const BOTH := Input(2, [], [[0], [1]], 10, 2)

  lemma TwoCandidates(inp: Input, c: seq<nat>)
    requires inp.elementCount == 2 && inp.provenOk == [] && Ascending(c) && Elems(c) == Candidates(inp)
    ensures Candidates(inp) == {0, 1} && c == [0, 1]
  {
    assert Candidates(inp) == Below(2);
    IdentityList(c, 2);
    assert c == [0, 1];
  }

  lemma EitherReduced(r: Reduced)
    requires IsReduction(EITHER, r)
    ensures r.candidates == [0, 1] && r.rawSets == [[0, 1]] && !r.hasEmptySet
  {
    hide Masks, Attributed;
    TwoCandidates(EITHER, r.candidates);
    var two: seq<nat> := [0, 1];
    assert Elems(two) == {0, 1};
    assert EITHER.failureSets[0] == two && Trace(EITHER, 0) == {0, 1};
    forall j | 0 <= j < |r.rawSets|
      ensures r.rawSets[j] == two
    {
      assert MinimalTrace(EITHER, Elems(r.rawSets[j]));
      AscendingUnique(r.rawSets[j], two);
    }
    assert MinimalTrace(EITHER, {0, 1});
    LexIrreflexive(two);
    assert |r.rawSets| > 1 ==> SizeLexLess(r.rawSets[0], r.rawSets[1]);
  }

  /** The cover word of a candidate holds the kept sets with its element. */
  lemma CoverAt(inp: Input, r: Reduced, c: nat)
    requires IsReduction(inp, r) && c < |r.candidates|
    ensures |CoverOf(r)| == |r.candidates| && CoverOf(r)[c] == Holders(r.rawSets, r.candidates[c])
  {
    hide KeptSets, Attributed, FirstEmpty, SetWords;
    CoverEntry(r.candidates, r.rawSets, r.cover, c);
  }

  lemma EitherWords(r: Reduced)
    requires IsReduction(EITHER, r)
    ensures |r.sets| == 1 && CoverOf(r) == [{0}, {0}] && FullOf(r) == {0} && StartSize(r.sets) == 1
  {
    hide IsReduction, CoverOf, FullOf, Bits, DisjointBound;
    EitherReduced(r);
    ReductionParts(EITHER, r);
    CoverAt(EITHER, r, 0);
    CoverAt(EITHER, r, 1);
    assert Holders(r.rawSets, 0) == {0} && Holders(r.rawSets, 1) == {0};
    SetCount(EITHER, r);
    MaskEntry(r, 0, 0);
    OnePacked(r.sets);
    assert Below(1) == {0};
  }

  lemma SetCount(inp: Input, r: Reduced)
    requires IsReduction(inp, r)
    ensures |r.sets| == |r.rawSets|
  {
    hide KeptSets, Attributed, FirstEmpty, SetWords, CoverWords;
  }

  lemma OnePacked(sets: seq<bv64>)
    requires |sets| == 1 && Bits(sets[0]) != {}
    ensures DisjointBound(sets) == 1
  {
    hide Bits, PackBefore;
    var x := sets[0];
    assert sets[1..] == [];
    assert PackOrder(sets) == [x];
    var order := Sets(PackOrder(sets));
    assert order[0] * {} == {} && order[1..] == [];
    assert PackCount(order, {}) == 1 + PackCount(order[1..], {} + order[0]);
  }

  lemma EitherSearch(cover: seq<set<nat>>)
    requires cover == [{0}, {0}]
    ensures var t := Search(1, false, map[Key({0}, 1, 0) := true]);
            && SizeSearch(cover, 10, FRESH, {0}, 1) == (t, true, 1)
            && Run(cover, Limits(10, 1, 9), Walk(t, [], false, 0), [], {0}, 1, 0) == Walk(t, [[0]], true, 1)
  {
    var one: set<nat> := {0};
    assert one - cover[0] == {} && cover[0] * one == {0};
    assert LowestFrom(one, 0) == 0;
    assert Query(cover, 10, FRESH.(nodes := 1), one - cover[0], 0, 0) == (FRESH.(nodes := 1), true);
    assert Branch(cover, 10, FRESH.(nodes := 1), one, 1, 0, 0, 0) == (FRESH.(nodes := 1), true);
    var t := Search(1, false, map[Key(one, 1, 0) := true]);
    assert Query(cover, 10, FRESH, one, 1, 0) == (t, true);
    var lim := Limits(10, 1, 9);
    var asked := Walk(t, [], false, 1);
    assert Query(cover, 10, t, one - cover[0], 0, 1) == (t, true);
    var here: seq<nat> := [0];
    assert [] + here == here && [] + [here] == [here];
    assert Run(cover, lim, asked, here, one - cover[0], 0, 1) == Walk(t, [here], true, 1);
    assert Scan(cover, lim, Walk(t, [], false, 0), [], one, 1, 0) == Walk(t, [[0]], true, 1);
  }

  lemma EitherMinima(h: set<nat>)
    ensures MinimumHittingSet(EITHER, h) <==> h == {0} || h == {1}
  {
    assert Candidates(EITHER) == {0, 1};
    assert EITHER.failureSets[0] == [0, 1];
    EitherHits({0});
    EitherHits({1});
    EitherHits(h);
    if HittingSet(EITHER, h) {
      if h != {0} && h != {1} {
        assert h == {0, 1};
        assert |h| == 2 && |{0}| == 1;
      }
    }
    forall g | HittingSet(EITHER, g)
      ensures 1 <= |g|
    {
      EitherHits(g);
    }
    assert |{0}| == 1 && |{1}| == 1;
  }

  lemma EitherHits(h: set<nat>)
    ensures HittingSet(EITHER, h) <==> h <= {0, 1} && h != {}
  {
    assert Candidates(EITHER) == {0, 1};
    assert EITHER.failureSets[0] == [0, 1];
    if h <= {0, 1} && h != {} {
      var e :| e in h;
      assert e in EITHER.failureSets[0];
      assert Hits(EITHER.failureSets[0], h);
    }
  }

  /** Resolved, proven, and not unique: two elements could be at fault and only one was asked for. */
  lemma ResolvedNotUnique(r: Reduced)
    requires IsReduction(EITHER, r)
    ensures ValidInput(EITHER)
    ensures var out := Answer(EITHER, r);
            && out.status == Resolved && out.optimalityProven && out.elements == [0]
               && !OnlyMinimum(EITHER, out.elements)
  {
    hide IsReduction, MinimumHittingSet, SizeSearch, Run;
    EitherReduced(r);
    EitherWords(r);
    EitherSearch(CoverOf(r));
    EitherMinima({1});
    var other: seq<nat> := [1];
    assert Ascending(other) && Elems(other) == {1};
    assert other != [0];
  }

  lemma BothReduced(r: Reduced)
    requires IsReduction(BOTH, r)
    ensures r.candidates == [0, 1] && r.rawSets == [[0], [1]] && !r.hasEmptySet
  {
    hide Masks, Attributed, KeptSets, MinimalTrace;
    TwoCandidates(BOTH, r.candidates);
    BothTraces();
    BothKept(r.rawSets);
  }

  lemma BothKept(sets: seq<seq<nat>>)
    requires KeptSets(BOTH, sets)
    ensures sets == [[0], [1]]
  {
    hide MinimalTrace, StrictOrder;
    BothTraces();
    BothMinimal({0});
    BothMinimal({1});
    var kept: seq<seq<nat>> := [[0], [1]];
    forall x | x in sets
      ensures x in kept
    {
      var j :| 0 <= j < |sets| && sets[j] == x;
      BothMinimal(Elems(x));
      AscendingUnique(x, if Elems(x) == {0} then kept[0] else kept[1]);
    }
    KeptMember(BOTH, sets, kept[0]);
    KeptMember(BOTH, sets, kept[1]);
    SizeLexIsStrict();
    assert SizeLexLess(kept[0], kept[1]);
    SortedUnique(SizeLexLess, sets, kept);
  }

  lemma BothTraces()
    ensures Candidates(BOTH) == {0, 1} && Trace(BOTH, 0) == {0} && Trace(BOTH, 1) == {1}
    ensures Elems([0 as nat]) == {0} && Elems([1 as nat]) == {1}
  {
    assert Candidates(BOTH) == {0, 1};
    assert BOTH.failureSets[0] == [0] && BOTH.failureSets[1] == [1];
  }

  lemma BothMinimal(t: set<nat>)
    ensures MinimalTrace(BOTH, t) <==> t == {0} || t == {1}
  {
    BothTraces();
  }

  lemma BothWords(r: Reduced)
    requires IsReduction(BOTH, r)
    ensures |r.sets| == 2 && CoverOf(r) == [{0}, {1}] && FullOf(r) == {0, 1} && StartSize(r.sets) == 2
  {
    hide IsReduction, CoverOf, FullOf, Bits, DisjointBound, Masks;
    BothReduced(r);
    BothCover(r);
    SetCount(BOTH, r);
    BothBits(r, 0);
    BothBits(r, 1);
    TwoPacked(r.sets);
  }

  lemma BothCover(r: Reduced)
    requires IsReduction(BOTH, r) && r.candidates == [0, 1] && r.rawSets == [[0], [1]]
    ensures CoverOf(r) == [{0}, {1}] && FullOf(r) == {0, 1}
  {
    hide IsReduction, CoverOf, FullOf, Bits, Holders, Masks;
    ReductionParts(BOTH, r);
    CoverAt(BOTH, r, 0);
    CoverAt(BOTH, r, 1);
    BothHolders();
    assert Below(2) == {0, 1};
  }

  lemma BothHolders()
    ensures var kept: seq<seq<nat>> := [[0], [1]];
            Holders(kept, 0) == {0} && Holders(kept, 1) == {1}
  {}

  lemma BothBits(r: Reduced, j: nat)
    requires IsReduction(BOTH, r) && r.candidates == [0, 1] && r.rawSets == [[0], [1]] && j < 2 == |r.sets|
    ensures Bits(r.sets[j]) == {j}
  {
    hide IsReduction, CoverOf, FullOf, Bits, Masks;
    ReductionParts(BOTH, r);
    SetWithin(BOTH, r, j);
    BitOf(r, j, 0);
    BitOf(r, j, 1);
    OnlyBit(Bits(r.sets[j]), j);
  }

  lemma BitOf(r: Reduced, j: nat, c: nat)
    requires Masked(r) && r.candidates == [0, 1] && r.rawSets == [[0], [1]] && j < 2 == |r.sets| && c < 2
    ensures c in Bits(r.sets[j]) <==> c == j
  {
    hide CoverOf, Bits, Masks;
    MaskEntry(r, c, j);
    assert r.rawSets[j] == [j] && r.candidates[c] == c;
  }

  lemma OnlyBit(s: set<nat>, j: nat)
    requires j < 2 && (forall c :: c in s ==> c < 2) && (0 in s <==> j == 0) && (1 in s <==> j == 1)
    ensures s == {j}
  {}

  lemma SetWithin(inp: Input, r: Reduced, j: nat)
    requires IsReduction(inp, r) && j < |r.rawSets|
    ensures j < |r.sets| && forall c :: c in Bits(r.sets[j]) ==> c < |r.candidates|
  {
    hide KeptSets, Attributed, FirstEmpty, CoverWords;
    SetEntry(r.candidates, r.rawSets, r.sets, j);
  }

  lemma TwoPacked(sets: seq<bv64>)
    requires |sets| == 2 && Bits(sets[0]) == {0} && Bits(sets[1]) == {1}
    ensures DisjointBound(sets) == 2
  {
    hide Bits, PackBefore;
    var x, y := sets[0], [sets[1]];
    assert sets[1..] == y && y[1..] == [];
    assert PackOrder(y) == y && InsertWord(x, y[1..]) == [x];
    var order := PackOrder(sets);
    assert order == InsertWord(x, y);
    assert order == [sets[0], sets[1]] || order == [sets[1], sets[0]];
    TwoCounted(Sets(order));
  }

  lemma TwoCounted(order: seq<set<nat>>)
    requires order == [{0}, {1}] || order == [{1}, {0}]
    ensures PackCount(order, {}) == 2
  {
    var used: set<nat> := {};
    assert order[0] * used == {} && used + order[0] == order[0];
    assert order[1..] == [order[1]] && order[1] * order[0] == {};
    assert order[1..][1..] == [];
    assert PackCount(order[1..], order[0]) == 1 + PackCount([], order[0] + order[1]);
  }

  lemma BothSearch(cover: seq<set<nat>>)
    requires cover == [{0}, {1}]
    ensures var t := BothMemo();
            SizeSearch(cover, 10, FRESH, {0, 1}, 2) == (t, true, 2)
  {
    var all: set<nat> := {0, 1};
    var one: set<nat> := {1};
    assert all - cover[0] == one && one - cover[1] == {};
    assert LowestFrom(all, 0) == 0;
    assert LowestFrom(one, 0) == 1 by {
      assert LowestFrom(one, 1) == 1;
    }
    var s1 := Search(1, false, map[]);
    var s2 := Search(2, false, map[]);
    assert Query(cover, 10, s2, one - cover[1], 0, 0) == (s2, true);
    assert Branch(cover, 10, s2, one, 1, 0, 1, 1) == (s2, true);
    assert Branch(cover, 10, s2, one, 1, 0, 1, 0) == (s2, true);
    var s3 := Search(2, false, map[Key(one, 1, 0) := true]);
    assert Query(cover, 10, s1, one, 1, 0) == (s3, true);
    assert Branch(cover, 10, s1, all, 2, 0, 0, 0) == (s3, true);
    assert Query(cover, 10, FRESH, all, 2, 0) == (BothMemo(), true);
  }

  function BothMemo(): Search {
    Search(2, false, map[Key({1}, 1, 0) := true][Key({0, 1}, 2, 0) := true])
  }

  lemma BothVisited(cover: seq<set<nat>>)
    requires cover == [{0}, {1}]
    ensures Run(cover, Limits(10, 2, 8), Walk(BothMemo(), [], false, 0), [], {0, 1}, 2, 0).visited != []
  {
    var all: set<nat> := {0, 1};
    var one: set<nat> := {1};
    var lim := Limits(10, 2, 8);
    var t := BothMemo();
    assert all - cover[0] == one && one - cover[1] == {} && cover[0] * all == {0} && cover[1] * one == {1};
    assert LowestFrom(one, 0) == 1 by {
      assert LowestFrom(one, 1) == 1;
    }
    var t1 := t.(nodes := 3);
    assert Query(cover, 10, t1, one - cover[1], 0, 1) == (t1, true);
    assert Branch(cover, 10, t1, one, 1, 1, 1, 1) == (t1, true);
    var t2 := t1.(memo := t1.memo[Key(one, 1, 1) := true]);
    assert Key(one, 1, 1) !in t.memo;
    assert Query(cover, 10, t, one, 1, 1) == (t2, true);
    var here: seq<nat> := [0];
    var both: seq<nat> := [0, 1];
    assert [] + here == here && here + [1] == both;
    assert Query(cover, 10, t2, one - cover[1], 0, 2) == (t2, true);
    assert Run(cover, lim, Walk(t2, [], false, 2), both, one - cover[1], 0, 2) == Walk(t2, [both], false, 2);
    assert Scan(cover, lim, Walk(t2, [both], false, 2), here, one, 1, 2) == Walk(t2, [both], false, 2);
    assert Scan(cover, lim, Walk(t2, [], false, 1), here, one, 1, 1) == Walk(t2, [both], false, 2);
    assert Run(cover, lim, Walk(t2, [], false, 1), here, one, 1, 1) == Walk(t2, [both], false, 2);
    var w := Walk(t2, [both], false, 2);
    VisitedStays(cover, lim, w, [], all, 2, 1);
    assert Scan(cover, lim, Walk(t, [], false, 0), [], all, 2, 0) == Scan(cover, lim, w, [], all, 2, 1);
  }

  /** Enumeration only adds to what it has visited. */
  lemma {:induction false} VisitedStays(cover: seq<set<nat>>, lim: Limits, w: Walk, current: seq<nat>, mask: set<nat>,
                                        b: nat, c: nat)
    requires b > 0
    ensures |Scan(cover, lim, w, current, mask, b, c).visited| >= |w.visited|
    decreases b, 0, |cover| - c
  {
    hide Query;
    if c < |cover| {
      var counted := w.(nodes := w.nodes + 1);
      var t := Query(cover, lim.oracle, w.search, mask - cover[c], b - 1, c + 1).0;
      var asked := counted.(search := t);
      var deeper := Run(cover, lim, asked, current + [c], mask - cover[c], b - 1, c + 1);
      if b > 1 {
        VisitedStays(cover, lim, asked, current + [c], mask - cover[c], b - 1, c + 1);
      }
      VisitedStays(cover, lim, counted, current, mask, b, c + 1);
      VisitedStays(cover, lim, asked, current, mask, b, c + 1);
      VisitedStays(cover, lim, deeper, current, mask, b, c + 1);
    }
  }

  /** A proven answer whose reported node count leaves out nodes the oracle spent during enumeration. */
  lemma NodeCountShort(r: Reduced)
    requires IsReduction(BOTH, r)
    ensures ValidInput(BOTH)
    ensures Answer(BOTH, r).optimalityProven && Answer(BOTH, r).searchNodes < AllNodes(BOTH, r)
  {
    hide IsReduction, SizeSearch, Run;
    BothReduced(r);
    BothWords(r);
    BothSearch(CoverOf(r));
    BothVisited(CoverOf(r));
    BothValid();
    NodeCountExact(BOTH, r);
  }

  lemma BothValid()
    ensures ValidInput(BOTH)
  {}
}
