/** Covering constraints with few candidates, by position. cover[c] is the set of constraints c meets. */
module Covers {
  import opened Orders

  /** Some member of s meets constraint i. */
  ghost predicate Met(cover: seq<set<nat>>, s: set<nat>, i: nat) {
    exists c :: c in s && c < |cover| && i in cover[c]
  }

  ghost predicate CoversAll(cover: seq<set<nat>>, s: set<nat>, mask: set<nat>) {
    forall i :: i in mask ==> Met(cover, s, i)
  }

  /** Candidate positions drawn from lo upwards. */
  ghost predicate Drawn(cover: seq<set<nat>>, s: set<nat>, lo: nat) {
    forall c :: c in s ==> lo <= c < |cover|
  }

  /** At most b candidates at positions from lo meet every constraint of the mask. */
  ghost predicate CoverWithin(cover: seq<set<nat>>, s: set<nat>, mask: set<nat>, b: nat, lo: nat) {
    Drawn(cover, s, lo) && |s| <= b && CoversAll(cover, s, mask)
  }

  ghost predicate Feasible(cover: seq<set<nat>>, mask: set<nat>, b: nat, lo: nat) {
    exists s: set<nat> :: CoverWithin(cover, s, mask, b, lo)
  }

  lemma FeasibleEmpty(cover: seq<set<nat>>, b: nat, lo: nat)
    ensures Feasible(cover, {}, b, lo)
  {
    assert CoverWithin(cover, {}, {}, b, lo);
  }

  lemma CoverHasMember(cover: seq<set<nat>>, s: set<nat>, mask: set<nat>)
    requires mask != {} && CoversAll(cover, s, mask)
    ensures |s| > 0
  {
    var i :| i in mask;
    assert Met(cover, s, i);
    var c :| c in s && c < |cover| && i in cover[c];
    assert s == {c} + (s - {c});
  }

  lemma InfeasibleZero(cover: seq<set<nat>>, mask: set<nat>, lo: nat)
    requires mask != {}
    ensures !Feasible(cover, mask, 0, lo)
  {
    forall s: set<nat> | CoversAll(cover, s, mask)
      ensures |s| > 0
    {
      CoverHasMember(cover, s, mask);
    }
  }

  lemma FeasibleMore(cover: seq<set<nat>>, mask: set<nat>, b: nat, b': nat, lo: nat)
    requires Feasible(cover, mask, b, lo) && b <= b'
    ensures Feasible(cover, mask, b', lo)
  {
    var s: set<nat> :| CoverWithin(cover, s, mask, b, lo);
    assert CoverWithin(cover, s, mask, b', lo);
  }

  /** Taking a candidate leaves the constraints it does not meet to one candidate fewer. */
  lemma FeasibleTake(cover: seq<set<nat>>, mask: set<nat>, b: nat, lo: nat, c: nat)
    requires lo <= c < |cover| && b > 0
    requires Feasible(cover, mask - cover[c], b - 1, lo)
    ensures Feasible(cover, mask, b, lo)
  {
    var s: set<nat> :| CoverWithin(cover, s, mask - cover[c], b - 1, lo);
    var t := s + {c};
    forall i | i in mask
      ensures Met(cover, t, i)
    {
      if i in cover[c] {
        assert c in t;
      } else {
        assert Met(cover, s, i);
        var d :| d in s && d < |cover| && i in cover[d];
        assert d in t;
      }
    }
    assert CoverWithin(cover, t, mask, b, lo);
  }

  lemma CoverWithout(cover: seq<set<nat>>, s: set<nat>, mask: set<nat>, b: nat, lo: nat, c: nat)
    requires CoverWithin(cover, s, mask, b, lo) && c in s && b > 0
    ensures c < |cover| && CoverWithin(cover, s - {c}, mask - cover[c], b - 1, lo)
  {
    forall i | i in mask - cover[c]
      ensures Met(cover, s - {c}, i)
    {
      assert Met(cover, s, i);
      var d :| d in s && d < |cover| && i in cover[d];
      assert d in s - {c};
    }
  }

  /** Any constraint of the mask must be met by a member; taking it leaves a smaller problem. */
  lemma FeasibleChoice(cover: seq<set<nat>>, mask: set<nat>, b: nat, lo: nat, i: nat) returns (c: nat)
    requires i in mask && Feasible(cover, mask, b, lo)
    ensures b > 0 && lo <= c < |cover| && i in cover[c]
    ensures Feasible(cover, mask - cover[c], b - 1, lo)
  {
    var s: set<nat> :| CoverWithin(cover, s, mask, b, lo);
    assert Met(cover, s, i);
    c :| c in s && c < |cover| && i in cover[c];
    assert |s - {c}| == |s| - 1;
    CoverWithout(cover, s, mask, b, lo, c);
    assert CoverWithin(cover, s - {c}, mask - cover[c], b - 1, lo);
  }

  /** The fewest candidates that meet every constraint of the mask. */
  ghost predicate Optimum(cover: seq<set<nat>>, mask: set<nat>, k: nat) {
    Feasible(cover, mask, k, 0) && (k > 0 ==> !Feasible(cover, mask, k - 1, 0))
  }

  lemma OptimumLeast(cover: seq<set<nat>>, mask: set<nat>, k: nat, s: set<nat>)
    requires Optimum(cover, mask, k) && Drawn(cover, s, 0) && CoversAll(cover, s, mask)
    ensures k <= |s|
  {
    if |s| < k {
      assert CoverWithin(cover, s, mask, k - 1, 0);
    }
  }

  lemma OptimumUnique(cover: seq<set<nat>>, mask: set<nat>, k: nat, k': nat)
    requires Optimum(cover, mask, k) && Optimum(cover, mask, k')
    ensures k == k'
  {
    if k < k' {
      FeasibleMore(cover, mask, k, k' - 1, 0);
    } else if k' < k {
      FeasibleMore(cover, mask, k', k - 1, 0);
    }
  }

  /** Constraints that all candidates together can meet are feasible with all of them. */
  lemma AllFeasible(cover: seq<set<nat>>, mask: set<nat>)
    requires forall i :: i in mask ==> Met(cover, Below(|cover|), i)
    ensures Feasible(cover, mask, |cover|, 0)
  {
    assert CoverWithin(cover, Below(|cover|), mask, |cover|, 0);
  }
}
