/** The exhaustive reference solver: every k-subset in lexicographic order, in place. */
module Reference {
  import opened Words
  import opened Orders
  import opened Problem
  import opened Reduction
  import opened Covers
  import opened Oracle
  import opened Solutions
  import opened Enumerator
  import opened Bounds
  import opened Bridge
  import opened Localizer

  // ---- combinations in lexicographic order ----

  /** A k-subset of the first n positions, ascending. */
  ghost predicate Combination(c: seq<nat>, n: nat, k: nat) {
    |c| == k && Positions(c, n)
  }

  lemma {:induction false} CombinationLow(c: seq<nat>, i: nat)
    requires Ascending(c) && i < |c|
    ensures i <= c[i]
  {
    if i > 0 {
      CombinationLow(c, i - 1);
    }
  }

  lemma {:induction false} CombinationHigh(c: seq<nat>, n: nat, k: nat, i: nat)
    requires Combination(c, n, k) && i < k
    ensures c[i] + (k - i) <= n
    decreases k - i
  {
    if i + 1 < k {
      CombinationHigh(c, n, k, i + 1);
    }
  }

  /** Ascending from a common prefix, each entry is at least one more than the one before. */
  lemma {:induction false} CombinationSpread(c: seq<nat>, p: nat, q: nat)
    requires Ascending(c) && p <= q < |c|
    ensures c[p] + (q - p) <= c[q]
    decreases q - p
  {
    if p < q {
      CombinationSpread(c, p, q - 1);
    }
  }

  /** The combination after c: position p steps up and the rest follow it closely. */
  ghost predicate Steps(c: seq<nat>, d: seq<nat>, n: nat, k: nat, p: nat) {
    && |c| == |d| == k && p < k
    && d[..p] == c[..p]
    && (forall q :: p <= q < k ==> d[q] == c[p] + 1 + (q - p))
    && c[p] + (k - p) < n
    && forall q :: p < q < k ==> c[q] + (k - q) == n
  }

  lemma StepsCombination(c: seq<nat>, d: seq<nat>, n: nat, k: nat, p: nat)
    requires Combination(c, n, k) && Steps(c, d, n, k, p)
    ensures Combination(d, n, k) && LexLess(c, d)
  {
    forall i, j | 0 <= i < j < k
      ensures d[i] < d[j]
    {
      if i < p {
        assert d[i] == d[..p][i] == c[i];
        if j < p {
          assert d[j] == d[..p][j] == c[j];
        }
      }
    }
    forall i | 0 <= i < k
      ensures d[i] < n
    {
      if i < p {
        assert d[i] == d[..p][i] == c[i];
      }
    }
    LexAtDifference(c, d, p);
  }

  lemma PrefixAgrees(a: seq<nat>, b: seq<nat>, p: nat, f: nat)
    requires f < p <= |a| && p <= |b| && a[..p] == b[..p]
    ensures a[f] == b[f]
  {
    assert a[f] == a[..p][f];
    assert b[f] == b[..p][f];
  }

  lemma NotBelow(a: seq<nat>, b: seq<nat>, p: nat)
    requires |a| == |b| && p <= |a| && a[..p] == b[..p]
    requires forall q :: p <= q < |a| ==> b[q] <= a[q]
    ensures !LexLess(a, b)
  {
    if LexLess(a, b) {
      var f := FirstDifference(a, b);
      if f < p {
        PrefixAgrees(a, b, p, f);
      }
    }
  }

  /** Nothing lies between a combination and its successor. */
  lemma StepsNext(c: seq<nat>, d: seq<nat>, n: nat, k: nat, p: nat, t: seq<nat>)
    requires Combination(c, n, k) && Steps(c, d, n, k, p)
    requires Combination(t, n, k) && LexLess(c, t)
    ensures t == d || LexLess(d, t)
  {
    var e := FirstDifference(c, t);
    CombinationHigh(t, n, k, e);
    assert e <= p;
    if e < p {
      assert d[..e] == d[..p][..e] == c[..p][..e] == c[..e];
      assert d[e] == d[..p][e] == c[..p][e] == c[e];
      LexAtDifference(d, t, e);
    } else {
      LexTotal(d, t);
      forall q | p <= q < k
        ensures d[q] <= t[q]
      {
        CombinationSpread(t, p, q);
      }
      NotBelow(t, d, p);
    }
  }

  /** With every entry at its ceiling there is no later combination. */
  lemma LastCombination(c: seq<nat>, n: nat, k: nat, t: seq<nat>)
    requires Combination(c, n, k) && Combination(t, n, k)
    requires forall q :: 0 <= q < k ==> c[q] + (k - q) == n
    ensures !LexLess(c, t)
  {
    if LexLess(c, t) {
      var e := FirstDifference(c, t);
      CombinationHigh(t, n, k, e);
    }
  }

  /** The first combination precedes every other. */
  lemma FirstCombination(c: seq<nat>, n: nat, k: nat, t: seq<nat>)
    requires Combination(c, n, k) && Combination(t, n, k)
    requires forall q :: 0 <= q < k ==> c[q] == q
    ensures !LexLess(t, c)
  {
    if LexLess(t, c) {
      var e := FirstDifference(t, c);
      CombinationLow(t, e);
    }
  }

  /** Moves the index array to the next combination in place, or reports that this was the last. */
  method Advance(idx: array<nat>, n: nat, k: nat) returns (done: bool)
    requires idx.Length == k && Combination(idx[..], n, k)
    modifies idx
    ensures done ==> idx[..] == old(idx[..]) && forall q :: 0 <= q < k ==> idx[q] + (k - q) == n
    ensures !done ==> exists p :: Steps(old(idx[..]), idx[..], n, k, p)
  {
    var pos := k;
    done := true;
    ghost var c := idx[..];
    while pos > 0
      invariant 0 <= pos <= k && done && idx[..] == c
      invariant forall q :: pos <= q < k ==> c[q] + (k - q) == n
    {
      pos := pos - 1;
      CombinationHigh(c, n, k, pos);
      if idx[pos] < n - k + pos {
        idx[pos] := idx[pos] + 1;
        for j := pos + 1 to k
          invariant idx[..pos] == c[..pos]
          invariant forall q :: pos <= q < j ==> idx[q] == c[pos] + 1 + (q - pos)
        {
          idx[j] := idx[j - 1] + 1;
        }
        done := false;
        assert Steps(c, idx[..], n, k, pos);
        return;
      }
    }
  }

  // ---- the covering combinations of one size ----

  ghost predicate CoveringCombination(cover: seq<set<nat>>, full: set<nat>, k: nat, c: seq<nat>) {
    Combination(c, |cover|, k) && CoversAll(cover, Elems(c), full)
  }

  /** The list holds, in order, exactly the covering combinations before c. */
  ghost predicate FoundBefore(cover: seq<set<nat>>, full: set<nat>, k: nat, picks: seq<seq<nat>>, c: seq<nat>) {
    && StrictlySorted(LexLess, picks)
    && forall t :: t in picks <==> CoveringCombination(cover, full, k, t) && LexLess(t, c)
  }

  ghost predicate FoundUpTo(cover: seq<set<nat>>, full: set<nat>, k: nat, picks: seq<seq<nat>>, c: seq<nat>) {
    && StrictlySorted(LexLess, picks)
    && forall t :: t in picks <==> CoveringCombination(cover, full, k, t) && (t == c || LexLess(t, c))
  }

  lemma AppendPick(cover: seq<set<nat>>, full: set<nat>, k: nat, picks: seq<seq<nat>>, c: seq<nat>)
    requires FoundBefore(cover, full, k, picks, c) && Combination(c, |cover|, k)
    ensures CoveringCombination(cover, full, k, c) ==> FoundUpTo(cover, full, k, picks + [c], c)
    ensures !CoveringCombination(cover, full, k, c) ==> FoundUpTo(cover, full, k, picks, c)
  {
    forall i | 0 <= i < |picks|
      ensures LexLess(picks[i], c)
    {
      assert picks[i] in picks;
    }
    forall t
      ensures t in picks + [c] <==> t in picks || t == c
    {}
  }

  lemma NextPick(cover: seq<set<nat>>, full: set<nat>, k: nat, picks: seq<seq<nat>>, c: seq<nat>, d: seq<nat>, p: nat)
    requires Combination(c, |cover|, k) && Steps(c, d, |cover|, k, p)
    requires FoundUpTo(cover, full, k, picks, c)
    ensures FoundBefore(cover, full, k, picks, d) && Combination(d, |cover|, k)
  {
    StepsCombination(c, d, |cover|, k, p);
    forall t | CoveringCombination(cover, full, k, t)
      ensures (t == c || LexLess(t, c)) <==> LexLess(t, d)
    {
      LexTotal(t, c);
      LexIrreflexive(d);
      if LexLess(t, c) {
        LexTransitive(t, c, d);
      }
      if LexLess(c, t) {
        StepsNext(c, d, |cover|, k, p, t);
        if LexLess(t, d) && LexLess(d, t) {
          LexTransitive(d, t, d);
        }
      }
    }
  }

  lemma LastPick(cover: seq<set<nat>>, full: set<nat>, k: nat, picks: seq<seq<nat>>, c: seq<nat>)
    requires Combination(c, |cover|, k) && FoundUpTo(cover, full, k, picks, c)
    requires forall q :: 0 <= q < k ==> c[q] + (k - q) == |cover|
    ensures forall t :: t in picks <==> CoveringCombination(cover, full, k, t)
  {
    forall t | CoveringCombination(cover, full, k, t)
      ensures t == c || LexLess(t, c)
    {
      LastCombination(c, |cover|, k, t);
      LexTotal(t, c);
    }
  }

  // ---- the solver ----

  /** What the positions of s below c meet. */
  function MetSet(cover: seq<set<nat>>, s: set<nat>, c: nat): set<nat>
    requires c <= |cover|
  {
    if c == 0 then {} else MetSet(cover, s, c - 1) + (if c - 1 in s then cover[c - 1] else {})
  }

  lemma {:induction false} MetSetMember(cover: seq<set<nat>>, s: set<nat>, c: nat, i: nat)
    requires c <= |cover|
    ensures i in MetSet(cover, s, c) <==> exists d :: d in s && d < c && i in cover[d]
  {
    if c > 0 {
      MetSetMember(cover, s, c - 1, i);
    }
  }

  method WordOf(idx: seq<nat>) returns (m: bv64)
    requires forall i :: 0 <= i < |idx| ==> idx[i] < WIDTH
    ensures Bits(m) == Elems(idx)
  {
    m := 0;
    BitsZero(m);
    for i := 0 to |idx|
      invariant Bits(m) == Elems(idx[..i])
    {
      BitsWithBit(m, idx[i]);
      m := WithBit(m, idx[i]);
      assert Elems(idx[..i + 1]) == Elems(idx[..i]) + {idx[i]};
    }
    assert idx[..|idx|] == idx;
  }

  method UnionAt(cover: seq<bv64>, m: bv64) returns (covered: bv64)
    requires |cover| <= WIDTH
    ensures Bits(covered) == MetSet(Sets(cover), Bits(m), |cover|)
  {
    covered := 0;
    BitsZero(covered);
    for c := 0 to |cover|
      invariant Bits(covered) == MetSet(Sets(cover), Bits(m), c)
    {
      BitHere(m, c);
      if Meets(m, One(c)) {
        covered := UnionWord(covered, cover[c]);
      }
    }
  }

  /** Whether the chosen positions meet exactly the full mask. */
  method CoversFull(cover: seq<bv64>, full: bv64, idx: seq<nat>) returns (yes: bool)
    requires |cover| <= WIDTH && Positions(idx, |cover|)
    requires forall c :: 0 <= c < |cover| ==> Bits(cover[c]) <= Bits(full)
    ensures yes <==> CoversAll(Sets(cover), Elems(idx), Bits(full))
  {
    var m := WordOf(idx);
    var covered := UnionAt(cover, m);
    yes := covered == full;
    if Bits(covered) == Bits(full) {
      BitsInjective(covered, full);
    }
    forall i: nat
      ensures i in Bits(covered) <==> Met(Sets(cover), Elems(idx), i)
    {
      MetSetMember(Sets(cover), Elems(idx), |cover|, i);
    }
  }

  /** The covering combinations of size k, cut at the solution bound. */
  ghost predicate FoundAll(cover: seq<set<nat>>, full: set<nat>, k: nat, picks: seq<seq<nat>>, bound: nat) {
    && StrictlySorted(LexLess, picks) && |picks| <= bound
    && (forall t :: t in picks ==> CoveringCombination(cover, full, k, t))
    && (|picks| < bound ==> forall t :: CoveringCombination(cover, full, k, t) ==> t in picks)
    && forall t, u :: u in picks && CoveringCombination(cover, full, k, t) && LexLess(t, u) ==> t in picks
  }

  lemma UpToIsAll(cover: seq<set<nat>>, full: set<nat>, k: nat, picks: seq<seq<nat>>, c: seq<nat>, bound: nat)
    requires FoundUpTo(cover, full, k, picks, c) && |picks| == bound
    ensures FoundAll(cover, full, k, picks, bound)
  {
    forall t, u | u in picks && CoveringCombination(cover, full, k, t) && LexLess(t, u)
      ensures t in picks
    {
      if u != c {
        LexTransitive(t, u, c);
      }
    }
  }

  method TryOfSize(cover: seq<bv64>, full: bv64, k: nat, bound: nat) returns (picks: seq<seq<nat>>)
    requires 0 < k <= |cover| <= WIDTH && bound > 0
    requires forall c :: 0 <= c < |cover| ==> Bits(cover[c]) <= Bits(full)
    ensures FoundAll(Sets(cover), Bits(full), k, picks, bound)
  {
    var n := |cover|;
    var idx := new nat[k](i => i);
    var done := false;
    picks := [];
    assert FoundBefore(Sets(cover), Bits(full), k, picks, idx[..]) by {
      forall t | Combination(t, n, k)
        ensures !LexLess(t, idx[..])
      {
        FirstCombination(idx[..], n, k, t);
      }
    }
    while !done
      invariant fresh(idx) && idx.Length == k && Combination(idx[..], n, k) && |picks| < bound
      invariant !done ==> FoundBefore(Sets(cover), Bits(full), k, picks, idx[..])
      invariant done ==> forall t :: t in picks <==> CoveringCombination(Sets(cover), Bits(full), k, t)
      invariant StrictlySorted(LexLess, picks)
      decreases !done, Later(idx[..], n)
    {
      ghost var c := idx[..];
      AppendPick(Sets(cover), Bits(full), k, picks, c);
      var yes := CoversFull(cover, full, idx[..]);
      if yes {
        picks := picks + [idx[..]];
        if |picks| >= bound {
          UpToIsAll(Sets(cover), Bits(full), k, picks, c, bound);
          return;
        }
      }
      done := Advance(idx, n, k);
      if done {
        LastPick(Sets(cover), Bits(full), k, picks, c);
      } else {
        ghost var p :| Steps(c, idx[..], n, k, p);
        NextPick(Sets(cover), Bits(full), k, picks, c, idx[..], p);
        StepsCombination(c, idx[..], n, k, p);
        LexIsLater(c, idx[..], n);
      }
    }
  }

  function Scale(digit: nat, p: nat): nat {
    digit * p
  }

  /** How far a list of k digits below n is from the largest one, read in base n. */
  ghost function Later(c: seq<nat>, n: nat): nat
    requires forall i :: 0 <= i < |c| ==> c[i] < n
  {
    if c == [] then 0 else Scale(n - 1 - c[0], Power(n, |c| - 1)) + Later(c[1..], n)
  }

  lemma {:induction false} LaterBelow(c: seq<nat>, n: nat)
    requires forall i :: 0 <= i < |c| ==> c[i] < n
    ensures Later(c, n) < Power(n, |c|)
  {
    if c != [] {
      LaterBelow(c[1..], n);
      DigitBound(n - 1 - c[0], n, Power(n, |c| - 1), Later(c[1..], n));
    }
  }

  lemma DigitBound(digit: nat, n: nat, p: nat, low: nat)
    requires digit < n && low < p
    ensures Scale(digit, p) + low < n * p
  {
    MulMonotone(digit + 1, n, p);
    MulStep(digit, p);
  }

  lemma DigitLess(a: nat, b: nat, p: nat, low: nat, high: nat)
    requires a < b && low < p
    ensures Scale(a, p) + low < Scale(b, p) + high
  {
    MulMonotone(a + 1, b, p);
    MulStep(a, p);
  }

  /** Moving later in the order brings a list closer to the largest. */
  lemma {:induction false} LexIsLater(c: seq<nat>, d: seq<nat>, n: nat)
    requires |c| == |d| && LexLess(c, d)
    requires forall i :: 0 <= i < |c| ==> c[i] < n && d[i] < n
    ensures Later(d, n) < Later(c, n)
  {
    if c[0] == d[0] {
      LexIsLater(c[1..], d[1..], n);
    } else {
      LaterBelow(d[1..], n);
      DigitLess(n - 1 - d[0], n - 1 - c[0], Power(n, |c| - 1), Later(d[1..], n), Later(c[1..], n));
    }
  }

  // ---- the result ----

  /** The reference result, given the optimum and the list of all minimum localizations. */
  ghost function ReferenceFound(inp: Input, k: nat, all: seq<seq<nat>>): Result
    requires |all| > 0 && inp.maxSolutions > 0
  {
    var n := if |all| < inp.maxSolutions then |all| else inp.maxSolutions;
    BLANK.(status := if n > 1 then Ambiguous else Resolved,
           reason := if n > 1 then LocalizationAmbiguous else LocalizationResolved,
           elements := all[0], optimalSize := k, optimalityProven := true,
           uniquenessProven := n == 1, solutionsFound := n,
           solutionsTruncated := n >= inp.maxSolutions && inp.maxSolutions > 1)
  }

  /** What the reference solver returns for a valid input, in terms of the problem alone. */
  ghost predicate ReferenceResult(inp: Input, r: Reduced, maxCandidates: nat, out: Result) {
    if r.hasEmptySet then out == INFEASIBLE_BLANK.(infeasibleWitness := r.emptySetOrigin)
    else if r.sets == [] then out == NOTHING_FAILED
    else if |r.candidates| > maxCandidates then
      out == BLANK.(status := Indeterminate, reason := LocalizationSearchLimit)
    else
      exists k :: Optimum(CoverOf(r), FullOf(r), k) && |Minima(r, k)| > 0 && inp.maxSolutions > 0
                  && out == ReferenceFound(inp, k, Minima(r, k))
  }

  lemma HeadsAgree<T(!new)>(less: (T, T) -> bool, a: seq<T>, b: seq<T>)
    requires StrictOrder(less) && StrictlySorted(less, a) && StrictlySorted(less, b) && a != []
    requires forall x :: x in a ==> x in b
    requires forall x, y :: x in b && y in a && less(x, y) ==> x in a
    ensures b != [] && a[0] == b[0]
  {
    HeadMember(a);
    FirstIsLeast(less, b, a[0]);
    HeadMember(b);
    if b[0] in a {
      FirstIsLeast(less, a, b[0]);
    }
  }

  lemma FirstIsLeast<T(!new)>(less: (T, T) -> bool, s: seq<T>, x: T)
    requires StrictlySorted(less, s) && x in s
    ensures s != [] && (x == s[0] || less(s[0], x))
  {}

  /** A sorted downward-closed part of a sorted list is a prefix of it. */
  lemma {:induction false} SortedPrefix<T(!new)>(less: (T, T) -> bool, a: seq<T>, b: seq<T>)
    requires StrictOrder(less) && StrictlySorted(less, a) && StrictlySorted(less, b)
    requires forall x :: x in a ==> x in b
    requires forall x, y :: x in b && y in a && less(x, y) ==> x in a
    ensures |a| <= |b| && a == b[..|a|]
  {
    if a != [] {
      HeadsAgree(less, a, b);
      forall x
        ensures x in a[1..] ==> x in b[1..]
      {
        TailMember(less, a, x);
        TailMember(less, b, x);
      }
      forall x, y | x in b[1..] && y in a[1..] && less(x, y)
        ensures x in a[1..]
      {
        TailMember(less, a, x);
        TailMember(less, b, x);
        TailMember(less, a, y);
      }
      SortedPrefix(less, a[1..], b[1..]);
    }
  }

  /** At the optimum the covering combinations found are the first of the solver's own list. */
  lemma FoundArePrefix(cover: seq<set<nat>>, full: set<nat>, k: nat, picks: seq<seq<nat>>, bound: nat)
    requires Optimum(cover, full, k) && FoundAll(cover, full, k, picks, bound)
    ensures var l := Solve(cover, full, k, 0);
            |picks| == (if |l| < bound then |l| else bound) && picks == l[..|picks|]
  {
    var l := Solve(cover, full, k, 0);
    forall t
      ensures t in l <==> CoveringCombination(cover, full, k, t)
    {
      SolveExact(cover, full, k, t);
    }
    SolveSorted(cover, full, k, 0);
    LexIsStrict();
    SortedPrefix(LexLess, picks, l);
    if |picks| < bound {
      SortedUnique(LexLess, picks, l);
    }
  }

  lemma SizeIsOptimum(cover: seq<set<nat>>, full: set<nat>, k: nat, picks: seq<seq<nat>>, bound: nat)
    requires k > 0 && bound > 0 && !Feasible(cover, full, k - 1, 0)
    requires FoundAll(cover, full, k, picks, bound)
    ensures picks != [] ==> Optimum(cover, full, k)
    ensures picks == [] ==> !Feasible(cover, full, k, 0)
  {
    if picks != [] {
      assert picks[0] in picks;
      SelectionFeasible(cover, full, k, 0, picks[0]);
    }
    if Feasible(cover, full, k, 0) {
      SolveNonEmpty(cover, full, k);
      var s := Solve(cover, full, k, 0)[0];
      SolveExact(cover, full, k, s);
      assert CoveringCombination(cover, full, k, s);
    }
  }

  lemma CoverInsideFull(r: Reduced)
    requires Masked(r)
    ensures forall c :: 0 <= c < |r.cover| ==> Bits(r.cover[c]) <= Bits(r.fullMask)
  {}

  lemma PicksNamed(r: Reduced, k: nat, bound: nat, picks: seq<seq<nat>>)
    requires |picks| <= |Solve(CoverOf(r), FullOf(r), k, 0)| && picks == Solve(CoverOf(r), FullOf(r), k, 0)[..|picks|]
    requires |picks| > 0
    ensures |Minima(r, k)| > 0 && Named(r.candidates, picks[0]) == Minima(r, k)[0]
  {}

  /** The reference solver: its last exit, a proof of infeasibility, is never reached. */
  method ReferenceLocalize(inp: Input, maxCandidates: nat) returns (out: Result, ghost r: Reduced)
    ensures !ValidInput(inp) ==> out == BLANK.(status := InvalidInput, reason := LocalizationInvalid)
    ensures ValidInput(inp) ==> IsReduction(inp, r) && ReferenceResult(inp, r, maxCandidates, out)
  {
    out := BLANK;
    r := Reduced([], [], [], [], [], 0, 0, false, 0);
    var v := Validate(inp);
    if v != Ok {
      out := out.(status := InvalidInput, reason := LocalizationInvalid);
      return;
    }
    ValidFits(inp);
    var red := Reduce(inp);
    r := red;
    if red.hasEmptySet {
      out := out.(status := ProvenInfeasible, hasInfeasibleWitness := true,
                  infeasibleWitness := red.emptySetOrigin, reason := LocalizationInfeasible);
      return;
    }
    if red.sets == [] {
      out := out.(status := Resolved, optimalityProven := true, uniquenessProven := true,
                  solutionsFound := 1, reason := LocalizationResolved);
      return;
    }
    if |red.candidates| > maxCandidates {
      out := out.(status := Indeterminate, reason := LocalizationSearchLimit);
      return;
    }
    out := SearchSizes(inp, red);
  }

  /** One size: either a result, or a proof that the size is too small. */
  method TrySize(inp: Input, r: Reduced, k: nat) returns (mins: seq<seq<nat>>)
    requires 0 < k <= |r.cover| && |r.cover| == |r.candidates| <= WIDTH && inp.maxSolutions > 0
    requires forall c :: 0 <= c < |r.cover| ==> Bits(r.cover[c]) <= Bits(r.fullMask)
    requires !Feasible(CoverOf(r), FullOf(r), k - 1, 0)
    ensures mins == [] ==> !Feasible(CoverOf(r), FullOf(r), k, 0)
    ensures mins != [] ==> Optimum(CoverOf(r), FullOf(r), k) && |Minima(r, k)| > 0 &&
                           FoundResult(inp, r, k, mins) == ReferenceFound(inp, k, Minima(r, k))
  {
    mins := TryOfSize(r.cover, r.fullMask, k, inp.maxSolutions);
    hide Feasible;
    SizeIsOptimum(CoverOf(r), FullOf(r), k, mins, inp.maxSolutions);
    if mins != [] {
      hide Optimum;
      FoundArePrefix(CoverOf(r), FullOf(r), k, mins, inp.maxSolutions);
      PicksNamed(r, k, inp.maxSolutions, mins);
    }
  }

  lemma ReadyToSearch(inp: Input, r: Reduced)
    requires Live(inp, r) && r.sets != []
    ensures |r.cover| == |r.candidates| <= WIDTH && inp.maxSolutions > 0
    ensures forall c :: 0 <= c < |r.cover| ==> Bits(r.cover[c]) <= Bits(r.fullMask)
    ensures !Feasible(CoverOf(r), FullOf(r), 0, 0) && Feasible(CoverOf(r), FullOf(r), |r.candidates|, 0)
  {
    FullNarrow(r);
    InfeasibleZero(CoverOf(r), FullOf(r), 0);
    FullFeasible(inp, r);
    CoverInsideFull(r);
  }

  /** Some size up to the number of candidates works, so the loop always returns. */
  method SearchSizes(inp: Input, r: Reduced) returns (out: Result)
    requires Live(inp, r) && r.sets != []
    ensures exists k :: Optimum(CoverOf(r), FullOf(r), k) && |Minima(r, k)| > 0 && inp.maxSolutions > 0
                        && out == ReferenceFound(inp, k, Minima(r, k))
  {
    hide IsReduction, ValidInput, Feasible, Optimum, Solve, Bits, FoundResult, ReferenceFound;
    ReadyToSearch(inp, r);
    for k := 1 to |r.candidates| + 1
      invariant !Feasible(CoverOf(r), FullOf(r), k - 1, 0)
    {
      var mins := TrySize(inp, r, k);
      if mins != [] {
        out := FoundResult(inp, r, k, mins);
        return;
      }
    }
    assert false;
  }

  function FoundResult(inp: Input, r: Reduced, k: nat, mins: seq<seq<nat>>): Result
    requires mins != []
  {
    BLANK.(
      optimalSize := k, optimalityProven := true, solutionsFound := |mins|,
      uniquenessProven := |mins| == 1,
      solutionsTruncated := |mins| >= inp.maxSolutions && inp.maxSolutions > 1,
      elements := Named(r.candidates, mins[0]),
      status := if |mins| > 1 then Ambiguous else Resolved,
      reason := if |mins| > 1 then LocalizationAmbiguous else LocalizationResolved)
  }
}
