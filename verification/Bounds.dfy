/** Bounds on the optimum: a packing of disjoint sets from below, the greedy cover from above. */
module Bounds {
  import opened Words
  import opened Orders
  import opened Covers
  import opened Oracle

  // ---- the packing bound ----

  predicate PackBefore(a: bv64, b: bv64) {
    Popcount(a) < Popcount(b) || (Popcount(a) == Popcount(b) && a < b)
  }

  function Popcount(m: bv64): nat {
    |Bits(m)|
  }

  function InsertWord(x: bv64, s: seq<bv64>): seq<bv64> {
    if s == [] then [x]
    else if PackBefore(s[0], x) then [s[0]] + InsertWord(x, s[1..])
    else [x] + s
  }

  /** std::sort by size and word value. Equal words are indistinguishable. */
  function PackOrder(s: seq<bv64>): seq<bv64> {
    if s == [] then [] else InsertWord(s[0], PackOrder(s[1..]))
  }

  lemma {:induction false} InsertWordMember(x: bv64, s: seq<bv64>, w: bv64)
    ensures w in InsertWord(x, s) <==> w == x || w in s
  {
    if s != [] {
      InsertWordMember(x, s[1..], w);
      assert s == [s[0]] + s[1..];
    }
  }

  lemma {:induction false} PackOrderMember(s: seq<bv64>, w: bv64)
    ensures w in PackOrder(s) <==> w in s
  {
    if s != [] {
      PackOrderMember(s[1..], w);
      InsertWordMember(s[0], PackOrder(s[1..]), w);
      assert s == [s[0]] + s[1..];
    }
  }

  /** How many sets are taken, each disjoint from the ones taken before. */
  function PackCount(order: seq<set<nat>>, used: set<nat>): nat {
    if order == [] then 0
    else if order[0] * used != {} then PackCount(order[1..], used)
    else 1 + PackCount(order[1..], used + order[0])
  }

  lemma DisjointMember<T>(a: set<T>, b: set<T>, x: T)
    requires x in a && a * b == {}
    ensures x !in b
  {
    assert x in b ==> x in a * b;
  }

  /** Disjoint sets need distinct members: whatever meets every set has at least as many outside those used. */
  lemma {:induction false} PackBelow(order: seq<set<nat>>, used: set<nat>, s: set<nat>)
    requires forall j :: 0 <= j < |order| ==> order[j] * s != {}
    ensures PackCount(order, used) <= |s - used|
  {
    if order != [] {
      if order[0] * used != {} {
        PackBelow(order[1..], used, s);
      } else {
        PackBelow(order[1..], used + order[0], s);
        var x :| x in order[0] * s;
        DisjointMember(order[0], used, x);
        var a, b := s - used, s - (used + order[0]);
        assert b <= a - {x};
        SubsetNoLarger(b, a - {x});
        assert |a - {x}| == |a| - 1;
      }
    }
  }

  /** The lower bound that starts the search. */
  function DisjointBound(sets: seq<bv64>): nat {
    PackCount(Sets(PackOrder(sets)), {})
  }

  method DisjointLowerBound(sets: seq<bv64>) returns (count: nat)
    ensures count == DisjointBound(sets)
  {
    var order := PackOrder(sets);
    var used: bv64 := 0;
    BitsZero(used);
    count := 0;
    for i := 0 to |order|
      invariant count + PackCount(Sets(order)[i..], Bits(used)) == DisjointBound(sets)
    {
      MeetsBits(order[i], used);
      assert Sets(order)[i..][1..] == Sets(order)[i + 1..];
      if !Meets(order[i], used) {
        used := UnionWord(used, order[i]);
        count := count + 1;
      }
    }
  }

  method UnionWord(a: bv64, b: bv64) returns (c: bv64)
    ensures Bits(c) == Bits(a) + Bits(b)
  {
    BitsOr(a, b);
    c := a | b;
  }

  lemma BoundBelow(sets: seq<bv64>, s: set<nat>)
    requires forall j :: 0 <= j < |sets| ==> Bits(sets[j]) * s != {}
    ensures DisjointBound(sets) <= |s|
  {
    var order := Sets(PackOrder(sets));
    forall j | 0 <= j < |order|
      ensures order[j] * s != {}
    {
      PackOrderMember(sets, PackOrder(sets)[j]);
      var k :| 0 <= k < |sets| && sets[k] == PackOrder(sets)[j];
    }
    PackBelow(order, {}, s);
    assert s - {} == s;
  }

  /** With a set to meet, at least one is taken. */
  lemma BoundPositive(sets: seq<bv64>)
    requires sets != []
    ensures DisjointBound(sets) > 0
  {
    PackOrderMember(sets, sets[0]);
    assert PackOrder(sets) != [];
  }

  // ---- the greedy cover ----

  /** The first candidate that meets most of what remains, looking from c with the best so far. */
  function BestFrom(cover: seq<set<nat>>, rem: set<nat>, c: nat, best: nat, count: nat): (nat, nat)
    decreases |cover| - c
  {
    if c >= |cover| then (best, count)
    else if |cover[c] * rem| > count then BestFrom(cover, rem, c + 1, c, |cover[c] * rem|)
    else BestFrom(cover, rem, c + 1, best, count)
  }

  function Best(cover: seq<set<nat>>, rem: set<nat>): (nat, nat) {
    BestFrom(cover, rem, 0, |cover|, 0)
  }

  lemma {:induction false} BestFromSpec(cover: seq<set<nat>>, rem: set<nat>, c: nat, best: nat, count: nat)
    requires c <= |cover|
    requires count > 0 ==> best < c && |cover[best] * rem| == count
    requires count == 0 ==> best == |cover|
    requires forall d :: 0 <= d < c ==> |cover[d] * rem| <= count
    ensures var (b, n) := BestFrom(cover, rem, c, best, count);
            && (n > 0 ==> b < |cover| && |cover[b] * rem| == n)
            && (n == 0 ==> b == |cover|)
            && forall d :: 0 <= d < |cover| ==> |cover[d] * rem| <= n
    decreases |cover| - c
  {
    if c < |cover| {
      if |cover[c] * rem| > count {
        BestFromSpec(cover, rem, c + 1, c, |cover[c] * rem|);
      } else {
        BestFromSpec(cover, rem, c + 1, best, count);
      }
    }
  }

  function Greedy(cover: seq<set<nat>>, rem: set<nat>): seq<nat>
    decreases |rem|
  {
    if rem == {} then []
    else
      var (b, n) := Best(cover, rem);
      if b >= |cover| || n == 0 then []
      else
        BestFromSpec(cover, rem, 0, |cover|, 0);
        Shrinks(cover[b], rem);
        [b] + Greedy(cover, rem - cover[b])
  }

  lemma Shrinks(c: set<nat>, rem: set<nat>)
    ensures |rem - c| + |c * rem| == |rem|
  {
    assert rem == (rem - c) + (c * rem);
    assert (rem - c) * (c * rem) == {};
  }

  /** A choice meets something not met before, so the choices are distinct positions. */
  lemma {:induction false} GreedyDistinct(cover: seq<set<nat>>, rem: set<nat>)
    ensures Distinct(Greedy(cover, rem))
    ensures forall k :: 0 <= k < |Greedy(cover, rem)| ==>
              Greedy(cover, rem)[k] < |cover| && cover[Greedy(cover, rem)[k]] * rem != {}
    decreases |rem|
  {
    var (b, n) := Best(cover, rem);
    BestFromSpec(cover, rem, 0, |cover|, 0);
    if rem != {} && n > 0 {
      Shrinks(cover[b], rem);
      var rest := rem - cover[b];
      var tail := Greedy(cover, rest);
      GreedyDistinct(cover, rest);
      assert cover[b] * rest == {};
      forall k | 0 <= k < |tail|
        ensures tail[k] != b && cover[tail[k]] * rem != {}
      {
        var x :| x in cover[tail[k]] * rest;
        assert x in cover[tail[k]] * rem;
      }
    }
  }

  /** Whenever a cover exists, greedy finds one. */
  lemma {:induction false} GreedyCovers(cover: seq<set<nat>>, rem: set<nat>, s: set<nat>)
    requires CoversAll(cover, s, rem)
    ensures CoversAll(cover, Elems(Greedy(cover, rem)), rem)
    decreases |rem|
  {
    if rem != {} {
      var (b, n) := Best(cover, rem);
      BestFromSpec(cover, rem, 0, |cover|, 0);
      var x :| x in rem;
      assert Met(cover, s, x);
      var c :| c in s && c < |cover| && x in cover[c];
      assert x in cover[c] * rem;
      NonEmptyCount(cover[c] * rem, x);
      Shrinks(cover[b], rem);
      var rest := rem - cover[b];
      forall i | i in rest
        ensures Met(cover, s, i)
      {
        assert i in rem;
      }
      GreedyCovers(cover, rest, s);
      var g, t := Greedy(cover, rem), Greedy(cover, rest);
      assert g == [b] + t;
      forall i | i in rem
        ensures Met(cover, Elems(g), i)
      {
        if i in cover[b] {
          assert g[0] in Elems(g);
        } else {
          assert Met(cover, Elems(t), i);
          var d :| d in Elems(t) && d < |cover| && i in cover[d];
          assert d in Elems(g);
        }
      }
    }
  }

  lemma NonEmptyCount<T>(s: set<T>, x: T)
    requires x in s
    ensures |s| > 0
  {}

  /** Members that each meet at most n constraints together meet at most n times their number. */
  lemma {:induction false} Pigeonhole(cover: seq<set<nat>>, s: set<nat>, rem: set<nat>, n: nat)
    requires Drawn(cover, s, 0) && CoversAll(cover, s, rem)
    requires forall c :: c in s ==> |cover[c] * rem| <= n
    ensures |rem| <= |s| * n
    decreases |s|
  {
    if s == {} {
      if rem != {} {
        CoverHasMember(cover, s, rem);
      }
    } else {
      var c :| c in s;
      var t, rest := s - {c}, rem - cover[c];
      assert |s| == |t| + 1;
      CoverWithout(cover, s, rem, |s|, 0, c);
      MeetsLess(cover, t, rem, rest, n);
      Pigeonhole(cover, t, rest, n);
      Shrinks(cover[c], rem);
      MulStep(|t|, n);
    }
  }

  lemma MeetsLess(cover: seq<set<nat>>, t: set<nat>, rem: set<nat>, rest: set<nat>, n: nat)
    requires Drawn(cover, t, 0) && rest <= rem
    requires forall c :: c in t ==> |cover[c] * rem| <= n
    ensures forall c :: c in t ==> |cover[c] * rest| <= n
  {
    forall d | d in t
      ensures |cover[d] * rest| <= n
    {
      SubsetNoLarger(cover[d] * rest, cover[d] * rem);
    }
  }

  /** When k candidates suffice, the best one meets at least one part in k of what remains. */
  lemma BestShare(cover: seq<set<nat>>, rem: set<nat>, k: nat)
    requires rem != {} && Feasible(cover, rem, k, 0)
    ensures exists s: nat :: 0 < |rem| <= s * Best(cover, rem).1 && s <= k
    ensures Best(cover, rem).1 > 0 ==> Best(cover, rem).0 < |cover|
                                       && |cover[Best(cover, rem).0] * rem| == Best(cover, rem).1
  {
    var s: set<nat> :| CoverWithin(cover, s, rem, k, 0);
    BestFromSpec(cover, rem, 0, |cover|, 0);
    hide BestFrom;
    Pigeonhole(cover, s, rem, Best(cover, rem).1);
    var x :| x in rem;
    NonEmptyCount(rem, x);
  }

  /** One greedy round removes at least one part in k of what remains, when k candidates suffice. */
  lemma GreedyContracts(cover: seq<set<nat>>, rem: set<nat>, k: nat)
    requires rem != {} && Feasible(cover, rem, k, 0)
    ensures var (b, n) := Best(cover, rem);
            b < |cover| && n > 0 && k * |rem - cover[b]| <= (k - 1) * |rem|
  {
    hide Best, Feasible;
    BestShare(cover, rem, k);
    var (b, n) := Best(cover, rem);
    var s: nat :| 0 < |rem| <= s * n && s <= k;
    Contraction(|rem|, n, s, k);
    Shrinks(cover[b], rem);
  }

  lemma Contraction(rem: nat, n: nat, s: nat, k: nat)
    requires 0 < rem <= s * n && s <= k
    ensures n > 0 && k > 0 && k * (rem - n) <= (k - 1) * rem
  {
    MulMonotone(s, k, n);
    assert k * (rem - n) == k * rem - k * n;
    assert (k - 1) * rem == k * rem - rem;
  }

  lemma MulStep(t: nat, n: nat)
    ensures (t + 1) * n == t * n + n
  {}

  lemma MulMonotone(a: nat, b: nat, n: nat)
    requires a <= b
    ensures a * n <= b * n
  {}

  function Power(b: nat, e: nat): nat {
    if e == 0 then 1 else b * Power(b, e - 1)
  }

  /** What remains after j greedy rounds. */
  function RemainingAfter(cover: seq<set<nat>>, rem: set<nat>, j: nat): set<nat> {
    if j == 0 || rem == {} then rem
    else
      var (b, n) := Best(cover, rem);
      if b >= |cover| then rem else RemainingAfter(cover, rem - cover[b], j - 1)
  }

  /** After j rounds at most ((k - 1) / k)^j of the constraints remain. */
  lemma {:induction false} GreedyRounds(cover: seq<set<nat>>, rem: set<nat>, k: nat, j: nat)
    requires k > 0 && Feasible(cover, rem, k, 0)
    ensures Power(k, j) * |RemainingAfter(cover, rem, j)| <= Power(k - 1, j) * |rem|
    decreases j
  {
    if rem == {} {
      assert RemainingAfter(cover, rem, j) == {};
    } else if j > 0 {
      GreedyContracts(cover, rem, k);
      var (b, n) := Best(cover, rem);
      var rest := rem - cover[b];
      FeasiblePart(cover, rem, rest, k);
      GreedyRounds(cover, rest, k, j - 1);
      var left := |RemainingAfter(cover, rest, j - 1)|;
      assert RemainingAfter(cover, rem, j) == RemainingAfter(cover, rest, j - 1);
      Chain(k, Power(k, j - 1), Power(k - 1, j - 1), left, |rest|, |rem|);
    }
  }

  lemma FeasiblePart(cover: seq<set<nat>>, rem: set<nat>, rest: set<nat>, k: nat)
    requires Feasible(cover, rem, k, 0) && rest <= rem
    ensures Feasible(cover, rest, k, 0)
  {
    var s: set<nat> :| CoverWithin(cover, s, rem, k, 0);
    assert CoverWithin(cover, s, rest, k, 0);
  }

  lemma Chain(k: nat, p: nat, q: nat, left: nat, rest: nat, rem: nat)
    requires k > 0 && p * left <= q * rest && k * rest <= (k - 1) * rem
    ensures (k * p) * left <= ((k - 1) * q) * rem
  {
    calc <= {
      (k * p) * left;
      k * (p * left);
      { MulMonotone(p * left, q * rest, k); }
      k * (q * rest);
      q * (k * rest);
      { MulMonotone(k * rest, (k - 1) * rem, q); }
      q * ((k - 1) * rem);
      ((k - 1) * q) * rem;
    }
  }
}
