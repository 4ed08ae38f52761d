/** Position-level covers and element-level hitting sets are the same thing. */
module Bridge {
  import opened Words
  import opened Orders
  import opened Problem
  import opened Reduction
  import opened Covers
  import opened Oracle
  import opened Solutions
  import opened Enumerator

  /** The elements at a set of candidate positions. */
  function NamedSet(candidates: seq<nat>, s: set<nat>): set<nat> {
    set c | c in s && c < |candidates| :: candidates[c]
  }

  /** A reduction of a valid input whose failure sets all have live members. */
  ghost predicate Live(inp: Input, r: Reduced) {
    ValidInput(inp) && IsReduction(inp, r) && !r.hasEmptySet
  }

  ghost predicate Masked(r: Reduced) {
    Masks(r.candidates, r.rawSets, r.sets, r.cover, r.fullMask)
  }

  ghost function CoverOf(r: Reduced): seq<set<nat>> {
    Sets(r.cover)
  }

  ghost function FullOf(r: Reduced): set<nat> {
    Bits(r.fullMask)
  }

  lemma FullNarrow(r: Reduced)
    requires Masked(r)
    ensures Narrow(FullOf(r)) && |CoverOf(r)| == |r.candidates|
    ensures FullOf(r) == {} <==> r.sets == []
  {
    assert r.sets != [] ==> 0 in Below(|r.rawSets|);
  }

  /** Candidate c belongs to kept set j, in either direction of the masks. */
  lemma MaskEntry(r: Reduced, c: nat, j: nat)
    requires Masked(r) && c < |r.candidates| && j < |r.rawSets|
    ensures j in CoverOf(r)[c] <==> r.candidates[c] in r.rawSets[j]
    ensures c in Bits(r.sets[j]) <==> r.candidates[c] in r.rawSets[j]
  {
    CoverEntry(r.candidates, r.rawSets, r.cover, c);
    SetEntry(r.candidates, r.rawSets, r.sets, j);
  }

  lemma CoverEntry(candidates: seq<nat>, raws: seq<seq<nat>>, cover: seq<bv64>, c: nat)
    requires CoverWords(candidates, raws, cover) && c < |candidates|
    ensures Sets(cover)[c] == Holders(raws, candidates[c])
  {}

  lemma SetEntry(candidates: seq<nat>, raws: seq<seq<nat>>, sets: seq<bv64>, j: nat)
    requires SetWords(candidates, raws, sets) && j < |sets|
    ensures Bits(sets[j]) == Places(candidates, Elems(raws[j]))
  {}

  /** Some position of s names an element of kept set j. */
  ghost predicate Shares(r: Reduced, s: set<nat>, j: nat)
    requires j < |r.rawSets|
  {
    exists c :: c in s && c < |r.candidates| && r.candidates[c] in r.rawSets[j]
  }

  lemma MetIsShares(r: Reduced, s: set<nat>, j: nat)
    requires Masked(r) && j < |r.rawSets|
    ensures Met(CoverOf(r), s, j) <==> Shares(r, s, j)
  {
    forall c | c in s && c < |r.candidates| {
      MaskEntry(r, c, j);
    }
  }

  /** A kept set is met by positions exactly when it holds one of their elements. */
  lemma MetByElement(r: Reduced, s: set<nat>, j: nat)
    requires Masked(r) && j < |r.rawSets|
    ensures Met(CoverOf(r), s, j) <==> Elems(r.rawSets[j]) * NamedSet(r.candidates, s) != {}
  {
    MetIsShares(r, s, j);
    var both := Elems(r.rawSets[j]) * NamedSet(r.candidates, s);
    if Shares(r, s, j) {
      var c :| c in s && c < |r.candidates| && r.candidates[c] in r.rawSets[j];
      assert r.candidates[c] in both;
    }
    if e :| e in both {
      var c :| c in s && c < |r.candidates| && r.candidates[c] == e;
    }
  }

  lemma MetByPosition(r: Reduced, s: set<nat>, j: nat)
    requires Masked(r) && j < |r.rawSets| && Drawn(CoverOf(r), s, 0)
    ensures Met(CoverOf(r), s, j) <==> Bits(r.sets[j]) * s != {}
  {
    MetIsShares(r, s, j);
    forall c | c in s {
      MaskEntry(r, c, j);
    }
    var both := Bits(r.sets[j]) * s;
    if Shares(r, s, j) {
      var c :| c in s && c < |r.candidates| && r.candidates[c] in r.rawSets[j];
      assert c in both;
    }
  }

  lemma NamedSetCandidates(inp: Input, r: Reduced, s: set<nat>)
    requires Elems(r.candidates) == Candidates(inp)
    ensures NamedSet(r.candidates, s) <= Candidates(inp)
  {
    forall e | e in NamedSet(r.candidates, s)
      ensures e in Candidates(inp)
    {
      assert e in Elems(r.candidates);
    }
  }

  lemma NoEmptyTrace(inp: Input, r: Reduced)
    requires IsReduction(inp, r) && !r.hasEmptySet
    ensures forall i :: 0 <= i < |inp.failureSets| ==> Trace(inp, i) != {}
  {}

  /** Positions cover the full mask exactly when their elements form a hitting set. */
  lemma CoverIsHitting(inp: Input, r: Reduced, s: set<nat>)
    requires IsReduction(inp, r) && !r.hasEmptySet
    ensures CoversAll(CoverOf(r), s, FullOf(r)) <==> HittingSet(inp, NamedSet(r.candidates, s))
  {
    hide IsReduction, Met, HittingSet, KeptSets, Masks, CoverOf, FullOf;
    var named := NamedSet(r.candidates, s);
    ReductionParts(inp, r);
    NamedSetCandidates(inp, r, s);
    NoEmptyTrace(inp, r);
    KeptPreserveHitting(inp, r.rawSets, named);
    forall j | 0 <= j < |r.rawSets|
      ensures Met(CoverOf(r), s, j) <==> Elems(r.rawSets[j]) * named != {}
    {
      MetByElement(r, s, j);
    }
  }

  lemma ReductionParts(inp: Input, r: Reduced)
    requires IsReduction(inp, r)
    ensures Elems(r.candidates) == Candidates(inp) && KeptSets(inp, r.rawSets) && Masked(r)
            && FullOf(r) == Below(|r.rawSets|)
  {
    hide KeptSets, SetWords, CoverWords;
  }

  // ---- lists of positions and lists of elements ----

  ghost predicate Positions(s: seq<nat>, n: nat) {
    Ascending(s) && forall k :: 0 <= k < |s| ==> s[k] < n
  }

  lemma NamedElems(candidates: seq<nat>, s: seq<nat>)
    requires forall k :: 0 <= k < |s| ==> s[k] < |candidates|
    ensures Elems(Named(candidates, s)) == NamedSet(candidates, Elems(s))
  {
    var t := Named(candidates, s);
    forall e | e in NamedSet(candidates, Elems(s))
      ensures e in Elems(t)
    {
      var c :| c in Elems(s) && c < |candidates| && candidates[c] == e;
      var k :| 0 <= k < |s| && s[k] == c;
      assert t[k] == e;
    }
    forall e | e in Elems(t)
      ensures e in NamedSet(candidates, Elems(s))
    {
      var k :| 0 <= k < |t| && t[k] == e;
      assert s[k] in Elems(s);
    }
  }

  lemma NamedAscending(candidates: seq<nat>, s: seq<nat>)
    requires Ascending(candidates) && Positions(s, |candidates|)
    ensures Ascending(Named(candidates, s))
  {}

  lemma {:induction false} NamedOrder(candidates: seq<nat>, a: seq<nat>, b: seq<nat>)
    requires Ascending(candidates)
    requires forall k :: 0 <= k < |a| ==> a[k] < |candidates|
    requires forall k :: 0 <= k < |b| ==> b[k] < |candidates|
    ensures LexLess(Named(candidates, a), Named(candidates, b)) <==> LexLess(a, b)
  {
    if a != [] && b != [] {
      assert Named(candidates, a)[1..] == Named(candidates, a[1..]);
      assert Named(candidates, b)[1..] == Named(candidates, b[1..]);
      if a[0] == b[0] {
        NamedOrder(candidates, a[1..], b[1..]);
      } else if a[0] < b[0] {
        assert candidates[a[0]] < candidates[b[0]];
      } else {
        assert candidates[b[0]] < candidates[a[0]];
      }
    }
  }

  lemma AscendingIndex(list: seq<nat>, a: nat, b: nat)
    requires Ascending(list) && a < |list| && b < |list| && list[a] < list[b]
    ensures a < b
  {}

  /** Every ascending list of candidates is a list of ascending positions. */
  lemma {:induction false} PositionsOf(candidates: seq<nat>, t: seq<nat>) returns (s: seq<nat>)
    requires Ascending(candidates) && Ascending(t)
    requires forall k :: 0 <= k < |t| ==> t[k] in candidates
    ensures Positions(s, |candidates|) && Named(candidates, s) == t
  {
    if t == [] {
      s := [];
    } else {
      var init := t[..|t| - 1];
      var p := PositionsOf(candidates, init);
      var c :| 0 <= c < |candidates| && candidates[c] == t[|t| - 1];
      forall k | 0 <= k < |p|
        ensures p[k] < c
      {
        assert Named(candidates, p)[k] == candidates[p[k]] == t[k];
        AscendingIndex(candidates, p[k], c);
      }
      s := p + [c];
      assert t == init + [t[|t| - 1]];
    }
  }

  // ---- optimum and minimum ----

  lemma HittingHasPositions(inp: Input, r: Reduced, h: set<nat>) returns (s: seq<nat>)
    requires IsReduction(inp, r) && h <= Candidates(inp)
    ensures Positions(s, |r.candidates|) && NamedSet(r.candidates, Elems(s)) == h && |s| == |h|
  {
    var t := ListOf(h);
    AscendingCount(t);
    forall k | 0 <= k < |t|
      ensures t[k] in r.candidates
    {
      assert t[k] in Elems(t);
      assert t[k] in Elems(r.candidates);
    }
    s := PositionsOf(r.candidates, t);
    NamedElems(r.candidates, s);
  }

  /** Any hitting set has at least optimum many elements. */
  lemma OptimumBelowHitting(inp: Input, r: Reduced, k: nat, h: set<nat>)
    requires Live(inp, r) && Optimum(CoverOf(r), FullOf(r), k) && HittingSet(inp, h)
    ensures k <= |h|
  {
    var s := HittingHasPositions(inp, r, h);
    CoverIsHitting(inp, r, Elems(s));
    AscendingCount(s);
    FullNarrow(r);
    OptimumLeast(CoverOf(r), FullOf(r), k, Elems(s));
  }

  /** Listed positions name the minimum hitting sets, and all of them. */
  lemma ListedIsMinimum(inp: Input, r: Reduced, k: nat, s: seq<nat>)
    requires Live(inp, r) && Optimum(CoverOf(r), FullOf(r), k)
    requires s in Solve(CoverOf(r), FullOf(r), k, 0)
    ensures Positions(s, |r.candidates|) && |s| == k
    ensures Ascending(Named(r.candidates, s)) && MinimumHittingSet(inp, Elems(Named(r.candidates, s)))
  {
    var t := Named(r.candidates, s);
    FullNarrow(r);
    SolveExact(CoverOf(r), FullOf(r), k, s);
    CoverIsHitting(inp, r, Elems(s));
    NamedElems(r.candidates, s);
    NamedAscending(r.candidates, s);
    AscendingCount(t);
    forall g | HittingSet(inp, g)
      ensures |Elems(t)| <= |g|
    {
      OptimumBelowHitting(inp, r, k, g);
    }
  }

  lemma MinimumSize(inp: Input, r: Reduced, k: nat, h: set<nat>)
    requires Live(inp, r) && Optimum(CoverOf(r), FullOf(r), k) && MinimumHittingSet(inp, h)
    ensures |h| == k
  {
    OptimumBelowHitting(inp, r, k, h);
    SolveNonEmpty(CoverOf(r), FullOf(r), k);
    var first := Solve(CoverOf(r), FullOf(r), k, 0)[0];
    ListedIsMinimum(inp, r, k, first);
    AscendingCount(Named(r.candidates, first));
  }

  lemma CandidateList(inp: Input, r: Reduced, t: seq<nat>) returns (s: seq<nat>)
    requires IsReduction(inp, r) && Ascending(t) && Elems(t) <= Candidates(inp)
    ensures Positions(s, |r.candidates|) && Named(r.candidates, s) == t
  {
    forall i | 0 <= i < |t|
      ensures t[i] in r.candidates
    {
      assert t[i] in Elems(t);
      assert t[i] in Elems(r.candidates);
    }
    s := PositionsOf(r.candidates, t);
  }

  lemma MinimumIsListed(inp: Input, r: Reduced, k: nat, t: seq<nat>) returns (s: seq<nat>)
    requires Live(inp, r) && Optimum(CoverOf(r), FullOf(r), k)
    requires Ascending(t) && MinimumHittingSet(inp, Elems(t))
    ensures s in Solve(CoverOf(r), FullOf(r), k, 0) && Named(r.candidates, s) == t
  {
    s := CandidateList(inp, r, t);
    FullNarrow(r);
    NamedElems(r.candidates, s);
    CoverIsHitting(inp, r, Elems(s));
    AscendingCount(t);
    MinimumSize(inp, r, k, Elems(t));
    SolveExact(CoverOf(r), FullOf(r), k, s);
  }

  /** The list of all minimum hitting sets, each ascending, in lexicographic order. */
  ghost predicate AllMinima(inp: Input, sols: seq<seq<nat>>) {
    && StrictlySorted(LexLess, sols)
    && forall t :: t in sols <==> Ascending(t) && MinimumHittingSet(inp, Elems(t))
  }

  ghost function Minima(r: Reduced, k: nat): (sols: seq<seq<nat>>)
    ensures |sols| == |Solve(CoverOf(r), FullOf(r), k, 0)|
    ensures forall i :: 0 <= i < |sols| ==> sols[i] == Named(r.candidates, Solve(CoverOf(r), FullOf(r), k, 0)[i])
  {
    var l := Solve(CoverOf(r), FullOf(r), k, 0);
    seq(|l|, i requires 0 <= i < |l| => Named(r.candidates, l[i]))
  }

  lemma MinimaAreMinimum(inp: Input, r: Reduced, k: nat)
    requires Live(inp, r) && Optimum(CoverOf(r), FullOf(r), k)
    ensures forall t :: t in Minima(r, k) ==> Ascending(t) && MinimumHittingSet(inp, Elems(t)) && |t| == k
  {
    var l, sols := Solve(CoverOf(r), FullOf(r), k, 0), Minima(r, k);
    forall i | 0 <= i < |sols|
      ensures Ascending(sols[i]) && MinimumHittingSet(inp, Elems(sols[i])) && |sols[i]| == k
    {
      ListedIsMinimum(inp, r, k, l[i]);
    }
  }

  lemma MinimaSorted(inp: Input, r: Reduced, k: nat)
    requires Live(inp, r) && Optimum(CoverOf(r), FullOf(r), k)
    ensures StrictlySorted(LexLess, Minima(r, k))
  {
    var l, sols := Solve(CoverOf(r), FullOf(r), k, 0), Minima(r, k);
    SolveSorted(CoverOf(r), FullOf(r), k, 0);
    forall i, j | 0 <= i < j < |sols|
      ensures LexLess(sols[i], sols[j])
    {
      ListedIsMinimum(inp, r, k, l[i]);
      ListedIsMinimum(inp, r, k, l[j]);
      NamedOrder(r.candidates, l[i], l[j]);
    }
  }

  lemma MinimaExact(inp: Input, r: Reduced, k: nat)
    requires Live(inp, r) && Optimum(CoverOf(r), FullOf(r), k)
    ensures AllMinima(inp, Minima(r, k)) && |Minima(r, k)| > 0
    ensures forall i :: 0 <= i < |Minima(r, k)| ==> |Minima(r, k)[i]| == k
  {
    var l, sols := Solve(CoverOf(r), FullOf(r), k, 0), Minima(r, k);
    SolveNonEmpty(CoverOf(r), FullOf(r), k);
    MinimaSorted(inp, r, k);
    MinimaAreMinimum(inp, r, k);
    forall i | 0 <= i < |sols|
      ensures |sols[i]| == k
    {
      assert sols[i] in sols;
    }
    forall t | Ascending(t) && MinimumHittingSet(inp, Elems(t))
      ensures t in sols
    {
      var s := MinimumIsListed(inp, r, k, t);
      var i :| 0 <= i < |l| && l[i] == s;
      assert sols[i] == t;
    }
  }

  /** The first of all minima is the canonical answer. */
  lemma FirstIsCanonical(inp: Input, sols: seq<seq<nat>>)
    requires AllMinima(inp, sols) && |sols| > 0
    ensures CanonicalAnswer(inp, sols[0])
  {
    assert sols[0] in sols;
    forall t | Ascending(t) && MinimumHittingSet(inp, Elems(t))
      ensures t == sols[0] || LexLess(sols[0], t)
    {
      var i :| 0 <= i < |sols| && sols[i] == t;
    }
  }

  lemma AllNamed(inp: Input, r: Reduced)
    requires IsReduction(inp, r)
    ensures NamedSet(r.candidates, Below(|r.candidates|)) == Candidates(inp)
  {
    var all := Below(|r.candidates|);
    NamedSetCandidates(inp, r, all);
    forall e | e in Candidates(inp)
      ensures e in NamedSet(r.candidates, all)
    {
      assert e in Elems(r.candidates);
      var c :| 0 <= c < |r.candidates| && r.candidates[c] == e;
      assert c in all;
    }
  }

  lemma KeptHasCandidate(inp: Input, r: Reduced, j: nat)
    requires IsReduction(inp, r) && j < |r.rawSets|
    ensures Elems(r.rawSets[j]) * Candidates(inp) != {}
  {
    var t := Elems(r.rawSets[j]);
    assert MinimalTrace(inp, t);
    var i :| 0 <= i < |inp.failureSets| && Trace(inp, i) == t;
    var e :| e in t;
    assert e in t * Candidates(inp);
  }

  /** Non-empty kept sets can all be met, so the optimum is at most the number of candidates. */
  lemma FullFeasible(inp: Input, r: Reduced)
    requires IsReduction(inp, r)
    ensures Feasible(CoverOf(r), FullOf(r), |r.candidates|, 0)
  {
    var all := Below(|r.candidates|);
    FullNarrow(r);
    AllNamed(inp, r);
    forall j | j in FullOf(r)
      ensures Met(CoverOf(r), all, j)
    {
      MetByElement(r, all, j);
      KeptHasCandidate(inp, r, j);
    }
    AllFeasible(CoverOf(r), FullOf(r));
  }
}
