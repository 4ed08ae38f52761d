/** The reference list of solutions: ascending selections in which every member meets something new. */
module Solutions {
  import opened Orders
  import opened Covers

  function Prefixed(c: nat, lists: seq<seq<nat>>): (r: seq<seq<nat>>)
    ensures |r| == |lists| && forall k :: 0 <= k < |r| ==> r[k] == [c] + lists[k]
  {
    seq(|lists|, k requires 0 <= k < |lists| => [c] + lists[k])
  }

  /** All selections of at most b positions from lo that meet the mask, in lexicographic order. */
  function Solve(cover: seq<set<nat>>, mask: set<nat>, b: nat, lo: nat): seq<seq<nat>>
    decreases b, 1, 0
  {
    if mask == {} then [[]]
    else if b == 0 then []
    else SolveFrom(cover, mask, b, lo)
  }

  function SolveFrom(cover: seq<set<nat>>, mask: set<nat>, b: nat, c: nat): seq<seq<nat>>
    requires b > 0
    decreases b, 0, |cover| - c
  {
    if c >= |cover| then []
    else
      (if cover[c] * mask == {} then [] else Prefixed(c, Solve(cover, mask - cover[c], b - 1, c + 1)))
      + SolveFrom(cover, mask, b, c + 1)
  }

  /** An ascending selection from lo of at most b positions that meets the whole mask. */
  ghost predicate Selection(cover: seq<set<nat>>, mask: set<nat>, b: nat, lo: nat, s: seq<nat>) {
    && Ascending(s) && |s| <= b
    && (forall k :: 0 <= k < |s| ==> lo <= s[k] < |cover|)
    && CoversAll(cover, Elems(s), mask)
  }

  lemma SelectionWithin(cover: seq<set<nat>>, mask: set<nat>, b: nat, lo: nat, s: seq<nat>)
    requires Selection(cover, mask, b, lo, s)
    ensures CoverWithin(cover, Elems(s), mask, b, lo) && |Elems(s)| == |s|
  {
    AscendingCount(s);
  }

  lemma SelectionFeasible(cover: seq<set<nat>>, mask: set<nat>, b: nat, lo: nat, s: seq<nat>)
    requires Selection(cover, mask, b, lo, s)
    ensures Feasible(cover, mask, b, lo)
  {
    SelectionWithin(cover, mask, b, lo, s);
  }

  lemma SelectionNonEmpty(cover: seq<set<nat>>, mask: set<nat>, b: nat, lo: nat, s: seq<nat>)
    requires Selection(cover, mask, b, lo, s) && mask != {}
    ensures s != []
  {
    CoverHasMember(cover, Elems(s), mask);
    assert s == [] ==> Elems(s) == {};
  }

  lemma SelectionCons(cover: seq<set<nat>>, mask: set<nat>, b: nat, lo: nat, c: nat, s: seq<nat>)
    requires b > 0 && lo <= c < |cover|
    requires Selection(cover, mask - cover[c], b - 1, c + 1, s)
    ensures Selection(cover, mask, b, lo, [c] + s)
  {
    var t := [c] + s;
    forall i | i in mask
      ensures Met(cover, Elems(t), i)
    {
      if i in cover[c] {
        assert t[0] in Elems(t);
      } else {
        assert Met(cover, Elems(s), i);
        var d :| d in Elems(s) && d < |cover| && i in cover[d];
        assert d in Elems(t);
      }
    }
  }

  lemma SelectionTail(cover: seq<set<nat>>, mask: set<nat>, b: nat, lo: nat, s: seq<nat>)
    requires Selection(cover, mask, b, lo, s) && s != []
    ensures b > 0 && s[0] < |cover| && Selection(cover, mask - cover[s[0]], b - 1, s[0] + 1, s[1..])
  {
    forall i | i in mask - cover[s[0]]
      ensures Met(cover, Elems(s[1..]), i)
    {
      assert Met(cover, Elems(s), i);
      var d :| d in Elems(s) && d < |cover| && i in cover[d];
      var k :| 0 <= k < |s| && s[k] == d;
      assert s[1..][k - 1] == d;
    }
  }

  /** Everything listed is a selection. */
  lemma {:induction false} SolveSound(cover: seq<set<nat>>, mask: set<nat>, b: nat, lo: nat)
    ensures forall k :: 0 <= k < |Solve(cover, mask, b, lo)| ==>
              Selection(cover, mask, b, lo, Solve(cover, mask, b, lo)[k])
    decreases b, 1, 0
  {
    if mask != {} && b > 0 {
      SolveFromSound(cover, mask, b, lo);
    }
  }

  lemma {:induction false} SolveFromSound(cover: seq<set<nat>>, mask: set<nat>, b: nat, c: nat)
    requires b > 0
    ensures forall k :: 0 <= k < |SolveFrom(cover, mask, b, c)| ==>
              Selection(cover, mask, b, c, SolveFrom(cover, mask, b, c)[k])
    decreases b, 0, |cover| - c
  {
    if c < |cover| {
      SolveFromSound(cover, mask, b, c + 1);
      var tail := SolveFrom(cover, mask, b, c + 1);
      if cover[c] * mask != {} {
        var inner := Solve(cover, mask - cover[c], b - 1, c + 1);
        SolveSound(cover, mask - cover[c], b - 1, c + 1);
        forall k | 0 <= k < |inner| {
          SelectionCons(cover, mask, b, c, c, inner[k]);
        }
      }
    }
  }

  /** The list is in strict lexicographic order, so it has no repeats. */
  lemma {:induction false} SolveSorted(cover: seq<set<nat>>, mask: set<nat>, b: nat, lo: nat)
    ensures StrictlySorted(LexLess, Solve(cover, mask, b, lo))
    decreases b, 1, 0
  {
    if mask != {} && b > 0 {
      SolveFromSorted(cover, mask, b, lo);
    }
  }

  lemma {:induction false} SolveFromSorted(cover: seq<set<nat>>, mask: set<nat>, b: nat, c: nat)
    requires b > 0
    ensures StrictlySorted(LexLess, SolveFrom(cover, mask, b, c))
    decreases b, 0, |cover| - c
  {
    if c < |cover| {
      SolveFromSorted(cover, mask, b, c + 1);
      if cover[c] * mask != {} {
        var inner := Solve(cover, mask - cover[c], b - 1, c + 1);
        var tail := SolveFrom(cover, mask, b, c + 1);
        SolveSorted(cover, mask - cover[c], b - 1, c + 1);
        SolveFromSound(cover, mask, b, c + 1);
        PrefixedSorted(c, inner);
        forall k | 0 <= k < |tail|
          ensures tail[k] != [] && c < tail[k][0]
        {
          SelectionNonEmpty(cover, mask, b, c + 1, tail[k]);
        }
      }
    }
  }

  lemma PrefixedSorted(c: nat, lists: seq<seq<nat>>)
    requires StrictlySorted(LexLess, lists)
    ensures StrictlySorted(LexLess, Prefixed(c, lists))
  {
    var p := Prefixed(c, lists);
    forall i, j | 0 <= i < j < |p|
      ensures LexLess(p[i], p[j])
    {
      LexPrepend(c, lists[i], lists[j]);
    }
  }

  lemma DisjointDifference<T>(a: set<T>, b: set<T>)
    ensures a * b == {} ==> b - a == b
  {
    if x :| x in b && x in a {
      assert x in a * b;
    }
  }

  /** The head of a smallest selection meets something, and the rest is as small as possible again. */
  lemma HeadNeeded(cover: seq<set<nat>>, mask: set<nat>, lo: nat, s: seq<nat>)
    requires s != [] && Selection(cover, mask, |s|, lo, s)
    requires !Feasible(cover, mask, |s| - 1, lo)
    ensures mask != {} && cover[s[0]] * mask != {}
    ensures |s| > 1 ==> !Feasible(cover, mask - cover[s[0]], |s| - 2, s[0] + 1)
  {
    var c := s[0];
    var rest := mask - cover[c];
    FeasibleEmpty(cover, |s| - 1, lo);
    SelectionTail(cover, mask, |s|, lo, s);
    SelectionFeasible(cover, rest, |s| - 1, c + 1, s[1..]);
    FeasibleLower(cover, rest, |s| - 1, c + 1, lo);
    DisjointDifference(cover[c], mask);
    if |s| > 1 && Feasible(cover, rest, |s| - 2, c + 1) {
      FeasibleLower(cover, rest, |s| - 2, c + 1, lo);
      FeasibleTake(cover, mask, |s| - 1, lo, c);
    }
  }

  /** A selection as small as any is listed: each of its members meets something the earlier ones do not. */
  lemma {:induction false} SolveComplete(cover: seq<set<nat>>, mask: set<nat>, b: nat, lo: nat, s: seq<nat>)
    requires Selection(cover, mask, |s|, lo, s) && |s| <= b
    requires s != [] ==> !Feasible(cover, mask, |s| - 1, lo)
    ensures s in Solve(cover, mask, b, lo)
    decreases |s|
  {
    hide Selection, Feasible, Solve, SolveFrom;
    if s == [] {
      if mask != {} {
        SelectionNonEmpty(cover, mask, |s|, lo, s);
      }
      SolveNothing(cover, b, lo);
    } else {
      var c := s[0];
      HeadNeeded(cover, mask, lo, s);
      SelectionTail(cover, mask, |s|, lo, s);
      SelectionStarts(cover, mask, |s|, lo, s);
      SolveComplete(cover, mask - cover[c], b - 1, c + 1, s[1..]);
      SolveFromMember(cover, mask, b, lo, c, s[1..]);
      SolveSomething(cover, mask, b, lo);
      assert s == [c] + s[1..];
    }
  }

  lemma SolveNothing(cover: seq<set<nat>>, b: nat, lo: nat)
    ensures [] in Solve(cover, {}, b, lo)
  {
    assert Solve(cover, {}, b, lo)[0] == [];
  }

  lemma SolveSomething(cover: seq<set<nat>>, mask: set<nat>, b: nat, lo: nat)
    requires mask != {} && b > 0
    ensures Solve(cover, mask, b, lo) == SolveFrom(cover, mask, b, lo)
  {
    hide SolveFrom;
  }

  lemma SelectionStarts(cover: seq<set<nat>>, mask: set<nat>, b: nat, lo: nat, s: seq<nat>)
    requires Selection(cover, mask, b, lo, s) && s != []
    ensures lo <= s[0] < |cover|
  {}

  lemma FeasibleLower(cover: seq<set<nat>>, mask: set<nat>, b: nat, lo: nat, lo': nat)
    requires Feasible(cover, mask, b, lo) && lo' <= lo
    ensures Feasible(cover, mask, b, lo')
  {
    var s: set<nat> :| CoverWithin(cover, s, mask, b, lo);
    assert CoverWithin(cover, s, mask, b, lo');
  }

  lemma {:induction false} SolveFromMember(cover: seq<set<nat>>, mask: set<nat>, b: nat, from: nat, c: nat, t: seq<nat>)
    requires b > 0 && from <= c < |cover| && cover[c] * mask != {}
    requires t in Solve(cover, mask - cover[c], b - 1, c + 1)
    ensures [c] + t in SolveFrom(cover, mask, b, from)
    decreases c - from
  {
    if from == c {
      var inner := Solve(cover, mask - cover[c], b - 1, c + 1);
      var k :| 0 <= k < |inner| && inner[k] == t;
      assert Prefixed(c, inner)[k] == [c] + t;
    } else {
      SolveFromMember(cover, mask, b, from + 1, c, t);
    }
  }

  /** At the optimum the list is exactly the minimum selections, each of the optimal size. */
  lemma SolveExact(cover: seq<set<nat>>, mask: set<nat>, k: nat, s: seq<nat>)
    requires Optimum(cover, mask, k)
    ensures s in Solve(cover, mask, k, 0) <==> |s| == k && Selection(cover, mask, k, 0, s)
  {
    if s in Solve(cover, mask, k, 0) {
      SolveSound(cover, mask, k, 0);
      SelectionWithin(cover, mask, k, 0, s);
      OptimumLeast(cover, mask, k, Elems(s));
    }
    if |s| == k && Selection(cover, mask, k, 0, s) {
      SolveComplete(cover, mask, k, 0, s);
    }
  }

  lemma SolveNonEmpty(cover: seq<set<nat>>, mask: set<nat>, k: nat)
    requires Optimum(cover, mask, k)
    ensures |Solve(cover, mask, k, 0)| > 0
  {
    var h: set<nat> :| CoverWithin(cover, h, mask, k, 0);
    var s := ListOf(h);
    AscendingCount(s);
    OptimumLeast(cover, mask, k, h);
    forall i | 0 <= i < |s|
      ensures 0 <= s[i] < |cover|
    {
      assert s[i] in Elems(s);
    }
    SolveExact(cover, mask, k, s);
  }
}
