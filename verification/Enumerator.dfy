/** The bounded enumeration of minimum localizations, pruned by the oracle. */
module Enumerator {
  import opened Words
  import opened Covers
  import opened Oracle
  import opened Solutions

  /** The bounds of a run: oracle nodes, solutions, enumeration nodes. */
  datatype Limits = Limits(oracle: nat, solutions: nat, nodes: nat)

  /** The state of a run. The source keeps the first and the number of the visited solutions. */
  datatype Walk = Walk(search: Search, visited: seq<seq<nat>>, truncated: bool, nodes: nat)

  function Run(cover: seq<set<nat>>, lim: Limits, w: Walk, current: seq<nat>, mask: set<nat>, b: nat, lo: nat): Walk
    decreases b, 1, 0
  {
    if w.truncated then w
    else if mask == {} then
      w.(visited := w.visited + [current], truncated := |w.visited| + 1 >= lim.solutions)
    else if b == 0 then w
    else Scan(cover, lim, w, current, mask, b, lo)
  }

  function Scan(cover: seq<set<nat>>, lim: Limits, w: Walk, current: seq<nat>, mask: set<nat>, b: nat, c: nat): Walk
    requires b > 0
    decreases b, 0, |cover| - c
  {
    if c >= |cover| then w
    else
      var counted := w.(nodes := w.nodes + 1);
      if counted.nodes > lim.nodes then counted.(truncated := true)
      else if cover[c] * mask == {} then Scan(cover, lim, counted, current, mask, b, c + 1)
      else
        var (t, found) := Query(cover, lim.oracle, w.search, mask - cover[c], b - 1, c + 1);
        var asked := counted.(search := t);
        if !found then
          if t.exhausted then asked.(truncated := true)
          else Scan(cover, lim, asked, current, mask, b, c + 1)
        else
          var deeper := Run(cover, lim, asked, current + [c], mask - cover[c], b - 1, c + 1);
          if deeper.truncated then deeper
          else Scan(cover, lim, deeper, current, mask, b, c + 1)
  }

  function Under(current: seq<nat>, lists: seq<seq<nat>>): (r: seq<seq<nat>>)
    ensures |r| == |lists| && forall k :: 0 <= k < |r| ==> r[k] == current + lists[k]
  {
    seq(|lists|, k requires 0 <= k < |lists| => current + lists[k])
  }

  /** The run may go on: it has not been cut, and the oracle is sound. */
  ghost predicate Going(cover: seq<set<nat>>, lim: Limits, w: Walk) {
    Sound(cover, lim.oracle, w.search) && !w.truncated && |w.visited| < lim.solutions
  }

  /** A cut run has met one of its bounds. */
  ghost predicate Cut(lim: Limits, w: Walk) {
    |w.visited| == lim.solutions || w.nodes > lim.nodes || w.search.exhausted
  }

  /** From w to t the run visited the first p of the listed solutions, all of them unless it was cut. */
  ghost predicate Visits(cover: seq<set<nat>>, lim: Limits, w: Walk, t: Walk, current: seq<nat>, listed: seq<seq<nat>>,
                         p: nat) {
    && p <= |listed|
    && t.visited == w.visited + Under(current, listed[..p])
    && Sound(cover, lim.oracle, t.search)
    && |t.visited| <= lim.solutions
    && (!t.truncated ==> p == |listed| && |t.visited| < lim.solutions)
    && (t.truncated ==> Cut(lim, t))
  }

  /** The run visits a prefix of the listed solutions in order, and all of them if it is not cut. */
  lemma {:induction false} RunExact(cover: seq<set<nat>>, lim: Limits, w: Walk, current: seq<nat>,
                                    mask: set<nat>, b: nat, lo: nat) returns (p: nat)
    requires Going(cover, lim, w) && Narrow(mask)
    ensures Visits(cover, lim, w, Run(cover, lim, w, current, mask, b, lo), current, Solve(cover, mask, b, lo), p)
    decreases b, 1, 0
  {
    if mask == {} {
      p := 1;
      var one: seq<seq<nat>> := [[]];
      assert current + [] == current;
      assert one[..1] == one && Under(current, one) == [current];
    } else if b == 0 {
      p := 0;
    } else {
      p := ScanExact(cover, lim, w, current, mask, b, lo);
    }
  }

  lemma {:induction false} ScanExact(cover: seq<set<nat>>, lim: Limits, w: Walk, current: seq<nat>,
                                     mask: set<nat>, b: nat, c: nat) returns (p: nat)
    requires Going(cover, lim, w) && Narrow(mask) && b > 0
    ensures Visits(cover, lim, w, Scan(cover, lim, w, current, mask, b, c), current, SolveFrom(cover, mask, b, c), p)
    decreases b, 0, |cover| - c
  {
    p := 0;
    if c < |cover| {
      var counted := w.(nodes := w.nodes + 1);
      var rest := mask - cover[c];
      if counted.nodes <= lim.nodes {
        if cover[c] * mask == {} {
          p := ScanExact(cover, lim, counted, current, mask, b, c + 1);
        } else {
          QueryExact(cover, lim.oracle, w.search, rest, b - 1, c + 1);
          var (t, found) := Query(cover, lim.oracle, w.search, rest, b - 1, c + 1);
          var asked := counted.(search := t);
          if found {
            p := ScanDeeper(cover, lim, asked, current, mask, b, c);
          } else if !t.exhausted {
            NothingListed(cover, rest, b - 1, c + 1);
            p := ScanExact(cover, lim, asked, current, mask, b, c + 1);
            assert Prefixed(c, []) + SolveFrom(cover, mask, b, c + 1) == SolveFrom(cover, mask, b, c + 1);
          }
        }
      }
    }
  }

  lemma {:induction false} ScanDeeper(cover: seq<set<nat>>, lim: Limits, asked: Walk, current: seq<nat>,
                                      mask: set<nat>, b: nat, c: nat) returns (p: nat)
    requires Going(cover, lim, asked) && Narrow(mask) && b > 0 && c < |cover| && cover[c] * mask != {}
    ensures var deeper := Run(cover, lim, asked, current + [c], mask - cover[c], b - 1, c + 1);
            var t := if deeper.truncated then deeper else Scan(cover, lim, deeper, current, mask, b, c + 1);
            Visits(cover, lim, asked, t, current, SolveFrom(cover, mask, b, c), p)
    decreases b, 0, |cover| - c, 0
  {
    var rest := mask - cover[c];
    var inner := Solve(cover, rest, b - 1, c + 1);
    var tail := SolveFrom(cover, mask, b, c + 1);
    assert SolveFrom(cover, mask, b, c) == Prefixed(c, inner) + tail;
    p := RunExact(cover, lim, asked, current + [c], rest, b - 1, c + 1);
    var deeper := Run(cover, lim, asked, current + [c], rest, b - 1, c + 1);
    if deeper.truncated {
      UnderInner(current, c, inner, tail, p);
    } else {
      var q := ScanExact(cover, lim, deeper, current, mask, b, c + 1);
      var t := Scan(cover, lim, deeper, current, mask, b, c + 1);
      VisitedBoth(asked.visited, deeper.visited, t.visited, current, c, inner, tail, q);
      p := p + q;
    }
  }

  lemma VisitedBoth(v0: seq<seq<nat>>, v1: seq<seq<nat>>, v2: seq<seq<nat>>, current: seq<nat>, c: nat,
                    inner: seq<seq<nat>>, tail: seq<seq<nat>>, q: nat)
    requires v1 == v0 + Under(current + [c], inner[..|inner|])
    requires q <= |tail| && v2 == v1 + Under(current, tail[..q])
    ensures v2 == v0 + Under(current, (Prefixed(c, inner) + tail)[..|inner| + q])
  {
    UnderBoth(current, c, inner, tail, q);
  }

  lemma NothingListed(cover: seq<set<nat>>, mask: set<nat>, b: nat, lo: nat)
    requires !Feasible(cover, mask, b, lo)
    ensures Solve(cover, mask, b, lo) == []
  {
    var l := Solve(cover, mask, b, lo);
    SolveSound(cover, mask, b, lo);
    if |l| > 0 {
      SelectionFeasible(cover, mask, b, lo, l[0]);
    }
  }

  lemma UnderInner(current: seq<nat>, c: nat, inner: seq<seq<nat>>, tail: seq<seq<nat>>, p: nat)
    requires p <= |inner|
    ensures Under(current + [c], inner[..p]) == Under(current, (Prefixed(c, inner) + tail)[..p])
  {
    var a := Under(current + [c], inner[..p]);
    var b := Under(current, (Prefixed(c, inner) + tail)[..p]);
    forall k | 0 <= k < p
      ensures a[k] == b[k]
    {
      assert a[k] == (current + [c]) + inner[k];
      assert b[k] == current + ([c] + inner[k]);
    }
  }

  lemma UnderBoth(current: seq<nat>, c: nat, inner: seq<seq<nat>>, tail: seq<seq<nat>>, q: nat)
    requires q <= |tail|
    ensures Under(current + [c], inner[..|inner|]) + Under(current, tail[..q]) ==
            Under(current, (Prefixed(c, inner) + tail)[..|inner| + q])
  {
    var l := Prefixed(c, inner) + tail;
    UnderInner(current, c, inner, tail, |inner|);
    assert l[..|inner| + q] == l[..|inner|] + tail[..q];
    assert Under(current, l[..|inner|] + tail[..q]) == Under(current, l[..|inner|]) + Under(current, tail[..q]);
  }

  /** A run from the start visits the first listed solutions, all of them unless it was cut. */
  lemma FromTheStart(cover: seq<set<nat>>, lim: Limits, t: Search, mask: set<nat>, b: nat)
    requires Sound(cover, lim.oracle, t) && Narrow(mask) && lim.solutions > 0
    ensures var w := Run(cover, lim, Walk(t, [], false, 0), [], mask, b, 0);
            var listed := Solve(cover, mask, b, 0);
            && |w.visited| <= |listed| && w.visited == listed[..|w.visited|]
            && |w.visited| <= lim.solutions
            && Counted(lim.oracle, w.search)
            && (!w.truncated ==> |w.visited| == |listed| && |listed| < lim.solutions)
            && (w.truncated ==> Cut(lim, w))
  {
    var listed := Solve(cover, mask, b, 0);
    var p := RunExact(cover, lim, Walk(t, [], false, 0), [], mask, b, 0);
    UnderNothing(listed[..p]);
  }

  lemma UnderNothing(l: seq<seq<nat>>)
    ensures Under([], l) == l
  {
    forall k | 0 <= k < |l|
      ensures [] + l[k] == l[k]
    {}
  }

  /** Candidate positions as element ids. */
  function Named(candidates: seq<nat>, s: seq<nat>): (r: seq<nat>)
    ensures |r| == |s|
    ensures forall k :: 0 <= k < |s| && s[k] < |candidates| ==> r[k] == candidates[s[k]]
  {
    seq(|s|, k requires 0 <= k < |s| => if s[k] < |candidates| then candidates[s[k]] else 0)
  }

  /** The enumerator object: it counts the solutions and keeps only the first. */
  class SolutionEnumerator {
    const candidates: seq<nat>
    const cover: seq<bv64>
    const oracle: FeasibilityOracle
    const maxSolutions: nat
    const nodeBudget: nat
    var current: seq<nat>
    var first: seq<nat>
    var found: nat
    var truncated: bool
    var nodes: nat
    ghost var walk: Walk
    ghost var path: seq<nat>

    ghost function Bounds(): Limits {
      Limits(oracle.limit, maxSolutions, nodeBudget)
    }

    ghost predicate Valid()
      reads this, oracle
    {
      && oracle.Valid() && oracle.cover == cover && |cover| == |candidates|
      && walk == Walk(oracle.search, walk.visited, truncated, nodes)
      && found == |walk.visited|
      && (found > 0 ==> first == Named(candidates, walk.visited[0]))
      && (found == 0 ==> first == [])
      && current == Named(candidates, path)
    }

    constructor (candidates: seq<nat>, oracle: FeasibilityOracle, maxSolutions: nat, nodeBudget: nat)
      requires oracle.Valid() && |oracle.cover| == |candidates|
      ensures Valid() && path == [] && walk == Walk(oracle.search, [], false, 0)
      ensures this.candidates == candidates && this.oracle == oracle && cover == oracle.cover
      ensures this.maxSolutions == maxSolutions && this.nodeBudget == nodeBudget
    {
      this.candidates, this.cover, this.oracle := candidates, oracle.cover, oracle;
      this.maxSolutions, this.nodeBudget := maxSolutions, nodeBudget;
      current, first, found, truncated, nodes := [], [], 0, false, 0;
      walk, path := Walk(oracle.search, [], false, 0), [];
    }

    method Enumerate(mask: bv64, budget: nat, lo: nat)
      requires Valid()
      modifies this, oracle
      ensures Valid() && path == old(path)
      ensures walk == old(Run(Sets(cover), Bounds(), walk, path, Bits(mask), budget, lo))
      decreases budget, 2, 0
    {
      BitsZero(mask);
      if truncated {
        return;
      }
      if mask == 0 {
        Record();
        return;
      }
      if budget == 0 {
        return;
      }
      var c := lo;
      ghost var start := walk;
      while c < |cover|
        invariant Valid() && path == old(path) && !truncated && lo <= c
        invariant Scan(Sets(cover), Bounds(), walk, path, Bits(mask), budget, c) ==
                  Scan(Sets(cover), Bounds(), start, path, Bits(mask), budget, lo)
      {
        TryOne(mask, budget, c);
        if truncated {
          return;
        }
        c := c + 1;
      }
    }

    method Record()
      requires Valid()
      modifies this
      ensures Valid() && path == old(path)
      ensures walk == old(walk).(visited := old(walk.visited) + [path],
                                 truncated := old(truncated) || |old(walk.visited)| + 1 >= maxSolutions)
    {
      found := found + 1;
      if found == 1 {
        first := current;
      }
      if found >= maxSolutions {
        truncated := true;
      }
      walk := walk.(visited := walk.visited + [path], truncated := truncated);
    }

    /** One turn of the candidate loop. */
    method TryOne(mask: bv64, budget: nat, c: nat)
      requires Valid() && !truncated && budget > 0 && c < |cover|
      modifies this, oracle
      ensures Valid() && path == old(path)
      ensures old(Scan(Sets(cover), Bounds(), walk, path, Bits(mask), budget, c)) ==
              if truncated then walk else Scan(Sets(cover), Bounds(), walk, path, Bits(mask), budget, c + 1)
      decreases budget, 1
    {
      hide Run, Query, Branch;
      nodes := nodes + 1;
      walk := walk.(nodes := nodes);
      if nodes > nodeBudget {
        truncated := true;
        walk := walk.(truncated := true);
        return;
      }
      MeetsBits(cover[c], mask);
      if Meets(cover[c], mask) {
        Pursue(mask, budget, c);
      }
    }

    /** A candidate that meets something: ask the oracle, and go below it or pass on. */
    method Pursue(mask: bv64, budget: nat, c: nat)
      requires Valid() && !truncated && budget > 0 && c < |cover|
      modifies this, oracle
      ensures Valid() && path == old(path)
      ensures var (t, yes) := old(Query(Sets(cover), oracle.limit, walk.search, Bits(mask) - Bits(cover[c]), budget - 1,
                                        c + 1));
              var asked := old(walk).(search := t);
              walk == if yes then Run(Sets(cover), Bounds(), asked, path + [c], Bits(mask) - Bits(cover[c]), budget - 1,
                                      c + 1)
                      else asked.(truncated := t.exhausted)
      decreases budget, 0
    {
      hide Run, Scan, Query, Branch;
      var rest := Without(mask, cover[c]);
      BitsWithout(mask, cover[c]);
      var yes := oracle.Covers(rest, budget - 1, c + 1);
      walk := walk.(search := oracle.search);
      if yes {
        Descend(rest, budget - 1, c);
      } else if oracle.exhausted {
        truncated := true;
        walk := walk.(truncated := true);
      }
    }

    /** Enumerates below candidate c and takes it off again. */
    method Descend(rest: bv64, budget: nat, c: nat)
      requires Valid() && c < |cover|
      modifies this, oracle
      ensures Valid() && path == old(path)
      ensures walk == old(Run(Sets(cover), Bounds(), walk, path + [c], Bits(rest), budget, c + 1))
      decreases budget, 3
    {
      current := current + [candidates[c]];
      path := path + [c];
      assert current == Named(candidates, path);
      Enumerate(rest, budget, c + 1);
      current := current[..|current| - 1];
      path := path[..|path| - 1];
      assert current == Named(candidates, path);
    }
  }
}
