/** How many nodes a refutation costs when no candidate lies in two constraints. */
module Chains {
  import opened Orders
  import opened Covers
  import opened Oracle

  ghost predicate Lone(cover: seq<set<nat>>) {
    forall c, i, j :: 0 <= c < |cover| && i in cover[c] && j in cover[c] ==> i == j
  }

  /** The constraints from j up to m. */
  function From(m: nat, j: nat): set<nat> {
    set i | i in Below(m) && j <= i
  }

  /** The candidates that lie in some constraint from j up. */
  ghost function Members(cover: seq<set<nat>>, j: nat): set<nat> {
    set c | c in Below(|cover|) && exists i :: i in cover[c] && j <= i
  }

  /** The candidates of constraint j from position c on. */
  function Holding(cover: seq<set<nat>>, j: nat, c: nat): set<nat> {
    set d | d in Below(|cover|) && c <= d && j in cover[d]
  }

  ghost predicate AllRefuted(memo: map<Key, bool>) {
    forall k :: k in memo ==> !memo[k]
  }

  /** A refutation that stayed within the budget and forgot nothing. */
  ghost predicate Refutes(s: Search, t: Search, found: bool, cost: nat) {
    && !found && !t.exhausted && AllRefuted(t.memo) && t.nodes <= s.nodes + cost
    && forall k :: k in s.memo ==> k in t.memo
  }

  /** What a query about the constraints from j costs: a node, and its own search unless it is remembered. */
  ghost function QueryCost(cover: seq<set<nat>>, memo: map<Key, bool>, m: nat, j: nat, b: nat): nat {
    if b == 0 then 0 else if Key(From(m, j), b, 0) in memo then 1 else 1 + |Members(cover, j)|
  }

  /** What is left of that beyond the first node. */
  ghost function Extra(cover: seq<set<nat>>, memo: map<Key, bool>, m: nat, j: nat, b: nat): nat {
    if b == 0 || Key(From(m, j), b, 0) in memo then 0 else |Members(cover, j)|
  }

  lemma {:induction false} LowestIs(mask: set<nat>, i: nat, j: nat)
    requires i <= j < 64 && j in mask && forall k :: k in mask ==> j <= k
    ensures LowestFrom(mask, i) == j
    decreases j - i
  {
    if i < j {
      LowestIs(mask, i + 1, j);
    }
  }

  lemma LoneOut(cover: seq<set<nat>>, j: nat, c: nat)
    requires Lone(cover) && c < |cover| && j in cover[c]
    ensures c !in Members(cover, j + 1)
  {}

  lemma MembersSplit(cover: seq<set<nat>>, j: nat)
    requires Lone(cover)
    ensures |Holding(cover, j, 0)| + |Members(cover, j + 1)| <= |Members(cover, j)|
  {
    var h, rest := Holding(cover, j, 0), Members(cover, j + 1);
    forall c | c in h
      ensures c !in rest
    {
      LoneOut(cover, j, c);
    }
    assert h * rest == {};
    assert |h + rest| == |h| + |rest|;
    forall c | c in h
      ensures c in Members(cover, j)
    {
      assert j in cover[c] && j <= j;
    }
    SubsetNoLarger(h + rest, Members(cover, j));
  }

  lemma HoldingStep(cover: seq<set<nat>>, j: nat, c: nat)
    requires c < |cover|
    ensures |Holding(cover, j, c)| == |Holding(cover, j, c + 1)| + (if j in cover[c] then 1 else 0)
  {
    if j in cover[c] {
      assert Holding(cover, j, c) == Holding(cover, j, c + 1) + {c};
    } else {
      assert Holding(cover, j, c) == Holding(cover, j, c + 1);
    }
  }

  lemma TakeOne(cover: seq<set<nat>>, m: nat, j: nat, c: nat)
    requires Lone(cover) && c < |cover| && j in cover[c]
    ensures From(m, j) - cover[c] == From(m, j + 1)
  {
    assert cover[c] == {j};
  }

  lemma FromStarts(m: nat, j: nat)
    requires j < m
    ensures j in From(m, j) && From(m, j) != {} && forall k :: k in From(m, j) ==> j <= k
  {
    assert j in From(m, j);
  }

  /** Asked for fewer candidates than constraints, the oracle refutes at the stated cost. */
  lemma {:induction false} QueryChain(cover: seq<set<nat>>, limit: nat, s: Search, m: nat, j: nat, b: nat)
    requires Lone(cover) && m <= 64 && j + b < m && !s.exhausted && AllRefuted(s.memo)
    requires s.nodes + QueryCost(cover, s.memo, m, j, b) <= limit
    ensures var (t, found) := Query(cover, limit, s, From(m, j), b, 0);
            && Refutes(s, t, found, QueryCost(cover, s.memo, m, j, b))
            && (b > 0 ==> Key(From(m, j), b, 0) in t.memo)
    decreases b, 1, 0
  {
    hide Members, Holding, From, Branch;
    FromStarts(m, j);
    if b > 0 && Key(From(m, j), b, 0) !in s.memo {
      LowestIs(From(m, j), 0, j);
      MembersSplit(cover, j);
      BranchChain(cover, limit, s.(nodes := s.nodes + 1), m, j, b, 0);
    }
  }

  lemma {:induction false} BranchChain(cover: seq<set<nat>>, limit: nat, s: Search, m: nat, j: nat, b: nat, c: nat)
    requires Lone(cover) && m <= 64 && j + b < m && b > 0 && !s.exhausted && AllRefuted(s.memo)
    requires s.nodes + |Holding(cover, j, c)| + Extra(cover, s.memo, m, j + 1, b - 1) <= limit
    ensures var (t, found) := Branch(cover, limit, s, From(m, j), b, 0, j, c);
            Refutes(s, t, found, |Holding(cover, j, c)| + Extra(cover, s.memo, m, j + 1, b - 1))
    decreases b, 0, |cover| - c
  {
    hide Members, Holding, From, Query, Lone;
    if c < |cover| {
      HoldingStep(cover, j, c);
      if j in cover[c] {
        TakeOne(cover, m, j, c);
        QueryChain(cover, limit, s, m, j + 1, b - 1);
        var (t, found) := Query(cover, limit, s, From(m, j + 1), b - 1, 0);
        BranchChain(cover, limit, t, m, j, b, c + 1);
      } else {
        BranchChain(cover, limit, s, m, j, b, c + 1);
      }
    }
  }

  /** A fresh oracle refutes m - 1 candidates for m lone constraints within one node and one for each candidate. */
  lemma ChainFits(cover: seq<set<nat>>, limit: nat, m: nat)
    requires Lone(cover) && 0 < m <= 64 && |cover| + 1 <= limit
    ensures var (t, found) := Query(cover, limit, FRESH, From(m, 0), m - 1, 0);
            !found && !t.exhausted && t.nodes <= |cover| + 1
  {
    hide Query, Lone;
    SubsetNoLarger(Members(cover, 0), Below(|cover|));
    QueryChain(cover, limit, FRESH, m, 0, m - 1);
  }

  /** When no fewer candidates than constraints suffice, no candidate lies in two of them. */
  lemma OptimumLone(cover: seq<set<nat>>, mask: set<nat>)
    requires Optimum(cover, mask, |mask|) && forall c :: 0 <= c < |cover| ==> cover[c] <= mask
    requires forall i :: i in mask ==> Met(cover, Below(|cover|), i)
    ensures Lone(cover)
  {
    forall c, i, j | 0 <= c < |cover| && i in cover[c] && j in cover[c]
      ensures i == j
    {
      if i != j {
        var rest := mask - cover[c];
        assert rest <= mask - {i, j};
        SubsetNoLarger(rest, mask - {i, j});
        assert |mask - {i, j}| == |mask| - 2;
        FeasibleEach(cover, rest);
        FeasibleMore(cover, rest, |rest|, |mask| - 2, 0);
        FeasibleTake(cover, mask, |mask| - 1, 0, c);
      }
    }
  }

  /** One candidate for each constraint is always enough. */
  lemma {:induction false} FeasibleEach(cover: seq<set<nat>>, mask: set<nat>)
    requires forall i :: i in mask ==> Met(cover, Below(|cover|), i)
    ensures Feasible(cover, mask, |mask|, 0)
    decreases |mask|
  {
    if mask == {} {
      FeasibleEmpty(cover, 0, 0);
    } else {
      var i :| i in mask;
      assert Met(cover, Below(|cover|), i);
      var c :| c in Below(|cover|) && c < |cover| && i in cover[c];
      var rest := mask - cover[c];
      SubsetSmaller(rest, mask);
      FeasibleEach(cover, rest);
      FeasibleMore(cover, rest, |rest|, |mask| - 1, 0);
      FeasibleTake(cover, mask, |mask|, 0, c);
    }
  }
}
