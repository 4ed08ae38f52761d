/** A node budget, computed from the input, that is enough for a proof. */
module Budgets {
  import opened Orders
  import opened Problem
  import opened Reduction
  import opened Covers
  import opened Oracle
  import opened Enumerator
  import opened Bridge
  import opened Localizer
  import opened Verifier
  import opened Uniqueness

  // ---- how many nodes n candidates can cost ----

  /** One query for at most b candidates. */
  function Cost(n: nat, b: nat): nat {
    if b == 0 then 0 else 1 + n * Cost(n, b - 1)
  }

  /** The queries for every size up to b. */
  function Deepening(n: nat, b: nat): nat {
    if b == 0 then 0 else Deepening(n, b - 1) + Cost(n, b)
  }

  /** The oracle's nodes while the selections of size b are enumerated. */
  function Asking(n: nat, b: nat): nat {
    if b == 0 then 0 else n * (Cost(n, b - 1) + Asking(n, b - 1))
  }

  /** The enumeration's own nodes. */
  function Walking(n: nat, b: nat): nat {
    if b == 0 then 0 else n * (1 + Walking(n, b - 1))
  }

  /** Enough for n candidates when greedy names g of them. */
  function Enough(n: nat, g: nat): nat {
    Deepening(n, g) + Asking(n, g) + Walking(n, g)
  }

  lemma ManyMore(n: nat, a: nat, b: nat)
    requires a <= b
    ensures n * a <= n * b
  {}

  lemma {:induction false} CostMore(n: nat, b: nat)
    ensures Cost(n, b) <= Cost(n, b + 1)
  {
    if b > 0 {
      CostMore(n, b - 1);
      ManyMore(n, Cost(n, b - 1), Cost(n, b));
    }
  }

  lemma {:induction false} AllMore(n: nat, b: nat)
    ensures Asking(n, b) <= Asking(n, b + 1) && Walking(n, b) <= Walking(n, b + 1)
  {
    if b > 0 {
      AllMore(n, b - 1);
      CostMore(n, b - 1);
      ManyMore(n, Cost(n, b - 1) + Asking(n, b - 1), Cost(n, b) + Asking(n, b));
      ManyMore(n, 1 + Walking(n, b - 1), 1 + Walking(n, b));
    }
  }

  lemma {:induction false} UpTo(n: nat, b: nat, g: nat)
    requires b <= g
    ensures Asking(n, b) <= Asking(n, g) && Walking(n, b) <= Walking(n, g)
    decreases g - b
  {
    if b < g {
      AllMore(n, b);
      UpTo(n, b + 1, g);
    }
  }

  // ---- the oracle ----

  lemma {:induction false} QueryCosts(cover: seq<set<nat>>, limit: nat, s: Search, mask: set<nat>, b: nat, lo: nat)
    ensures Query(cover, limit, s, mask, b, lo).0.nodes <= s.nodes + Cost(|cover|, b)
    decreases b, 1, 0
  {
    hide LowestFrom;
    if !s.exhausted && mask != {} && b > 0 && s.nodes + 1 <= limit && Key(mask, b, lo) !in s.memo {
      BranchCosts(cover, limit, s.(nodes := s.nodes + 1), mask, b, lo, LowestFrom(mask, 0), lo);
      Fewer(|cover|, lo, Cost(|cover|, b - 1));
    } else {
      CostPositive(|cover|, b);
    }
  }

  lemma CostPositive(n: nat, b: nat)
    ensures b > 0 ==> Cost(n, b) >= 1
  {
    if b > 0 {
      ManyMore(n, 0, Cost(n, b - 1));
    }
  }

  lemma Fewer(n: nat, c: nat, x: nat)
    ensures Rest(n, c) * x <= n * x
  {
    if c <= n {
      ManyMore(x, n - c, n);
      Swap(x, n - c);
      Swap(x, n);
    }
  }

  lemma Swap(a: nat, b: nat)
    ensures a * b == b * a
  {}

  /** The candidates from c on. */
  function Rest(n: nat, c: nat): nat {
    if c <= n then n - c else 0
  }

  lemma OneOfRest(n: nat, c: nat, x: nat)
    requires c < n
    ensures Rest(n, c) * x == x + Rest(n, c + 1) * x
  {
    var k := Rest(n, c + 1);
    assert (1 + k) * x == x + k * x;
  }

  lemma {:induction false} BranchCosts(cover: seq<set<nat>>, limit: nat, s: Search, mask: set<nat>, b: nat, lo: nat,
                                       i: nat, c: nat)
    requires b > 0
    ensures Branch(cover, limit, s, mask, b, lo, i, c).0.nodes <= s.nodes + Rest(|cover|, c) * Cost(|cover|, b - 1)
    decreases b, 0, |cover| - c
  {
    hide Query, Rest, Cost;
    var n, x := |cover|, Cost(|cover|, b - 1);
    RestPositive(n, c, x);
    if i < 64 && c < n {
      OneOfRest(n, c, x);
      RestPositive(n, c + 1, x);
      if i !in cover[c] {
        BranchCosts(cover, limit, s, mask, b, lo, i, c + 1);
      } else {
        QueryCosts(cover, limit, s, mask - cover[c], b - 1, lo);
        var (t, found) := Query(cover, limit, s, mask - cover[c], b - 1, lo);
        BranchCosts(cover, limit, t, mask, b, lo, i, c + 1);
      }
    }
  }

  lemma RestPositive(n: nat, c: nat, x: nat)
    ensures Rest(n, c) * x >= 0
  {}

  // ---- the enumeration ----

  /** From w to t at most so many nodes more, of the oracle and of the enumeration. */
  predicate Spends(w: Walk, t: Walk, asked: nat, walked: nat) {
    t.search.nodes <= w.search.nodes + asked && t.nodes <= w.nodes + walked
  }

  lemma {:induction false} RunCosts(cover: seq<set<nat>>, lim: Limits, w: Walk, current: seq<nat>, mask: set<nat>,
                                    b: nat, lo: nat)
    ensures Spends(w, Run(cover, lim, w, current, mask, b, lo), Asking(|cover|, b), Walking(|cover|, b))
    decreases b, 1, 0
  {
    hide Scan, Rest;
    if !w.truncated && mask != {} && b > 0 {
      ScanCosts(cover, lim, w, current, mask, b, lo);
      Fewer(|cover|, lo, Cost(|cover|, b - 1) + Asking(|cover|, b - 1));
      Fewer(|cover|, lo, 1 + Walking(|cover|, b - 1));
    } else {
      RestPositive(|cover|, 0, 0);
    }
  }

  lemma {:induction false} ScanCosts(cover: seq<set<nat>>, lim: Limits, w: Walk, current: seq<nat>, mask: set<nat>,
                                     b: nat, c: nat)
    requires b > 0
    ensures var n := |cover|;
            Spends(w, Scan(cover, lim, w, current, mask, b, c),
                   Rest(n, c) * (Cost(n, b - 1) + Asking(n, b - 1)), Rest(n, c) * (1 + Walking(n, b - 1)))
    decreases b, 0, |cover| - c
  {
    hide Query, Run, Rest, Cost, Asking, Walking;
    var n := |cover|;
    var x, y := Cost(n, b - 1) + Asking(n, b - 1), 1 + Walking(n, b - 1);
    RestPositive(n, c, x);
    RestPositive(n, c, y);
    if c < n {
      OneOfRest(n, c, x);
      OneOfRest(n, c, y);
      RestPositive(n, c + 1, x);
      RestPositive(n, c + 1, y);
      var counted := w.(nodes := w.nodes + 1);
      if counted.nodes <= lim.nodes {
        if cover[c] * mask == {} {
          ScanCosts(cover, lim, counted, current, mask, b, c + 1);
        } else {
          QueryCosts(cover, lim.oracle, w.search, mask - cover[c], b - 1, c + 1);
          var (t, found) := Query(cover, lim.oracle, w.search, mask - cover[c], b - 1, c + 1);
          var asked := counted.(search := t);
          RunCosts(cover, lim, asked, current + [c], mask - cover[c], b - 1, c + 1);
          ScanCosts(cover, lim, asked, current, mask, b, c + 1);
          ScanCosts(cover, lim, Run(cover, lim, asked, current + [c], mask - cover[c], b - 1, c + 1), current, mask, b,
                    c + 1);
        }
      }
    }
  }

  // ---- the size search ----

  /** The queries for the sizes from k to g. */
  function Between(n: nat, k: nat, g: nat): nat
    decreases g - k
  {
    if k > g then 0 else Cost(n, k) + Between(n, k + 1, g)
  }

  lemma {:induction false} BetweenWithin(n: nat, k: nat, g: nat)
    requires 0 < k <= g + 1
    ensures Between(n, k, g) + Deepening(n, k - 1) == Deepening(n, g)
    decreases g - k
  {
    hide Cost;
    if k <= g {
      BetweenWithin(n, k + 1, g);
    }
  }

  /** With a size that suffices within reach, the search finds one at most as large. */
  lemma {:induction false} SizeFound(cover: seq<set<nat>>, limit: nat, s: Search, full: set<nat>, k: nat, g: nat)
    requires Sound(cover, limit, s) && !s.exhausted && Narrow(full)
    requires k <= g <= MAX_CANDIDATES && Feasible(cover, full, g, 0) && s.nodes + Between(|cover|, k, g) <= limit
    ensures var (t, found, best) := SizeSearch(cover, limit, s, full, k);
            found && best <= g && t.nodes <= s.nodes + Between(|cover|, k, g)
    decreases g - k
  {
    hide Query, Feasible, Cost;
    QueryExact(cover, limit, s, full, k, 0);
    QueryCosts(cover, limit, s, full, k, 0);
    var (t, found) := Query(cover, limit, s, full, k, 0);
    if !found && k < g {
      SizeFound(cover, limit, t, full, k + 1, g);
    }
  }

  // ---- the budget ----

  /** The size of the greedy answer, which the greedy localizer gives beforehand. */
  ghost function GreedySize(r: Reduced): nat {
    |GreedyList(r.candidates, CoverOf(r), FullOf(r))|
  }

  lemma GreedyFeasible(inp: Input, r: Reduced)
    requires Live(inp, r)
    ensures Feasible(CoverOf(r), FullOf(r), GreedySize(r), 0)
  {
    hide IsReduction, HittingSet, Feasible, GreedyList;
    GreedyHits(inp, r);
    AscendingCount(GreedyList(r.candidates, CoverOf(r), FullOf(r)));
    HittingFeasible(inp, r, Elems(GreedyList(r.candidates, CoverOf(r), FullOf(r))));
  }

  lemma GreedyAmong(inp: Input, r: Reduced)
    requires Live(inp, r)
    ensures GreedySize(r) <= |r.candidates| <= MAX_CANDIDATES
  {
    hide GreedyList, ValidInput, KeptSets, Attributed, FirstEmpty, Masks;
    var l := GreedyList(r.candidates, CoverOf(r), FullOf(r));
    GreedyHits(inp, r);
    AscendingCount(l);
    AscendingCount(r.candidates);
    SubsetNoLarger(Elems(l), Elems(r.candidates));
    ValidFits(inp);
  }

  lemma GreedyAbove(inp: Input, r: Reduced)
    requires Live(inp, r) && r.sets != []
    ensures 0 < StartSize(r.sets) <= GreedySize(r)
  {
    hide IsReduction, ValidInput, Feasible, GreedySize, StartSize;
    StartBelow(inp, r);
    GreedyFeasible(inp, r);
    if GreedySize(r) < StartSize(r.sets) {
      FeasibleMore(CoverOf(r), FullOf(r), GreedySize(r), StartSize(r.sets) - 1, 0);
    }
  }

  /** A node budget of that many nodes is never spent. */
  lemma EnoughSearches(inp: Input, r: Reduced)
    requires Live(inp, r) && r.sets != [] && inp.nodeBudget >= Enough(|r.candidates|, GreedySize(r))
    ensures var (t, found, best) := Searched(inp, r);
            found && best <= GreedySize(r) && t.nodes <= Deepening(|r.candidates|, GreedySize(r))
  {
    hide IsReduction, ValidInput, Feasible, GreedySize, StartSize, SizeSearch, CoverOf, Deepening, Asking, Walking;
    hide Between;
    var n, g, k := |r.candidates|, GreedySize(r), StartSize(r.sets);
    GreedyAbove(inp, r);
    GreedyAmong(inp, r);
    GreedyFeasible(inp, r);
    CoverCount(inp, r);
    NothingNegative(n, g, k);
    BetweenWithin(n, k, g);
    LiveNarrow(inp, r);
    FreshSound(CoverOf(r), inp.nodeBudget);
    SizeFound(CoverOf(r), inp.nodeBudget, FRESH, FullOf(r), k, g);
    SearchedIs(inp, r);
  }

  lemma CoverCount(inp: Input, r: Reduced)
    requires Live(inp, r)
    ensures |CoverOf(r)| == |r.candidates|
  {
    hide ValidInput;
    ReductionWidth(inp, r);
  }

  lemma NothingNegative(n: nat, g: nat, k: nat)
    requires k > 0
    ensures Asking(n, g) >= 0 && Walking(n, g) >= 0 && Deepening(n, k - 1) >= 0
  {}

  lemma FreshSound(cover: seq<set<nat>>, limit: nat)
    ensures Sound(cover, limit, FRESH) && !FRESH.exhausted && FRESH.nodes == 0
  {}

  lemma SearchedIs(inp: Input, r: Reduced)
    ensures Searched(inp, r) == SizeSearch(CoverOf(r), inp.nodeBudget, FRESH, FullOf(r), StartSize(r.sets))
  {}

  lemma EnoughUnspent(inp: Input, r: Reduced)
    requires Live(inp, r) && r.sets != [] && inp.nodeBudget >= Enough(|r.candidates|, GreedySize(r))
    ensures !BudgetSpent(inp, r)
  {
    hide IsReduction, ValidInput, GreedySize, Searched, Run, CoverOf, Deepening, Asking, Walking;
    var (t, found, best) := Searched(inp, r);
    EnoughSearches(inp, r);
    CoverCount(inp, r);
    UpTo(|r.candidates|, best, GreedySize(r));
    RunCosts(CoverOf(r), RunLimits(inp, t.nodes), Walk(t, [], false, 0), [], FullOf(r), best, 0);
    EnumeratedIs(inp, r, t, best);
  }

  lemma EnumeratedIs(inp: Input, r: Reduced, t: Search, best: nat)
    ensures Enumerated(inp, r, t, best) == Run(CoverOf(r), RunLimits(inp, t.nodes), Walk(t, [], false, 0), [],
                                               FullOf(r), best, 0)
  {}

  /**
   * A caller who asks for two solutions or more, with that budget, gets a proof, and resolved exactly for the only
   * minimum: all of it known before the call, from the number of candidates and the greedy answer.
   */
  lemma EnoughProves(inp: Input, r: Reduced)
    requires Live(inp, r) && r.sets != [] && inp.nodeBudget >= Enough(|r.candidates|, GreedySize(r))
    ensures Answer(inp, r).optimalityProven
    ensures inp.maxSolutions > 1 ==> (Answer(inp, r).status == Resolved <==> OnlyMinimum(inp, Answer(inp, r).elements))
  {
    hide IsReduction, ValidInput, Answer, BudgetSpent, OnlyMinimum, Enough, GreedySize, HittingSet;
    EnoughUnspent(inp, r);
    LocalizeIndeterminate(inp, r);
    if inp.maxSolutions > 1 {
      ResolvedForCaller(inp, r);
    }
  }
}
