/** The budgeted, memoised feasibility oracle. */
module Oracle {
  import opened Covers
  import opened Words

  datatype Key = Key(mask: set<nat>, budget: nat, lo: nat)

  /** What the oracle object carries from query to query. */
  datatype Search = Search(nodes: nat, exhausted: bool, memo: map<Key, bool>)

  const FRESH: Search := Search(0, false, map[])

  /** The lowest member at or above i, below 64; 64 when there is none. */
  function LowestFrom(mask: set<nat>, i: nat): (r: nat)
    requires i <= 64
    ensures r <= 64
    ensures r < 64 ==> r in mask
    ensures r == 64 ==> forall k :: k in mask ==> k < i || k >= 64
    decreases 64 - i
  {
    if i == 64 then 64 else if i in mask then i else LowestFrom(mask, i + 1)
  }

  /** One query: the state it leaves and its answer. */
  function Query(cover: seq<set<nat>>, limit: nat, s: Search, mask: set<nat>, b: nat, lo: nat): (Search, bool)
    decreases b, 1, 0
  {
    if s.exhausted then (s, false)
    else if mask == {} then (s, true)
    else if b == 0 then (s, false)
    else if s.nodes + 1 > limit then (s.(nodes := s.nodes + 1, exhausted := true), false)
    else
      var counted := s.(nodes := s.nodes + 1);
      var key := Key(mask, b, lo);
      if key in s.memo then (counted, s.memo[key])
      else
        var (t, found) := Branch(cover, limit, counted, mask, b, lo, LowestFrom(mask, 0), lo);
        (if t.exhausted then t else t.(memo := t.memo[key := found]), found)
  }

  /** Tries, from position c, each candidate that meets constraint i. */
  function Branch(cover: seq<set<nat>>, limit: nat, s: Search, mask: set<nat>, b: nat, lo: nat, i: nat,
                  c: nat): (Search, bool)
    requires b > 0
    decreases b, 0, |cover| - c
  {
    if i >= 64 || c >= |cover| then (s, false)
    else if i !in cover[c] then Branch(cover, limit, s, mask, b, lo, i, c + 1)
    else
      var (t, found) := Query(cover, limit, s, mask - cover[c], b - 1, lo);
      if found then (t, true)
      else if t.exhausted then (t, false)
      else Branch(cover, limit, t, mask, b, lo, i, c + 1)
  }

  /** Every remembered answer is the truth. */
  ghost predicate MemoTrue(cover: seq<set<nat>>, memo: map<Key, bool>) {
    forall k :: k in memo ==> (memo[k] <==> Feasible(cover, k.mask, k.budget, k.lo))
  }

  /** Nodes are counted up to one past the limit, and exhaustion is exactly that. */
  ghost predicate Counted(limit: nat, s: Search) {
    s.nodes <= limit + 1 && (s.exhausted <==> s.nodes == limit + 1)
  }

  ghost predicate Sound(cover: seq<set<nat>>, limit: nat, s: Search) {
    MemoTrue(cover, s.memo) && Counted(limit, s)
  }

  /** Masks of at most 64 constraints, all below 64. */
  ghost predicate Narrow(mask: set<nat>) {
    forall i :: i in mask ==> i < 64
  }

  /** What an answer says: yes is a proof, no is a refutation unless the budget ran out. */
  ghost predicate Answers(cover: seq<set<nat>>, limit: nat, s: Search, t: Search, found: bool,
                          mask: set<nat>, b: nat, lo: nat) {
    && Sound(cover, limit, t)
    && s.nodes <= t.nodes
    && (found ==> Feasible(cover, mask, b, lo) && !t.exhausted)
    && (!found && !t.exhausted ==> !Feasible(cover, mask, b, lo))
  }

  /** Every query keeps the oracle sound and answers truthfully. */
  lemma {:induction false} QueryExact(cover: seq<set<nat>>, limit: nat, s: Search, mask: set<nat>, b: nat, lo: nat)
    requires Sound(cover, limit, s) && Narrow(mask)
    ensures var (t, found) := Query(cover, limit, s, mask, b, lo);
            Answers(cover, limit, s, t, found, mask, b, lo)
    decreases b, 1, 0
  {
    if s.exhausted {
    } else if mask == {} {
      FeasibleEmpty(cover, b, lo);
    } else if b == 0 {
      InfeasibleZero(cover, mask, lo);
    } else if s.nodes + 1 <= limit {
      var counted := s.(nodes := s.nodes + 1);
      var key := Key(mask, b, lo);
      if key !in s.memo {
        var i := LowestFrom(mask, 0);
        var k :| k in mask;
        assert i < 64;
        BranchExact(cover, limit, counted, mask, b, lo, i, lo);
        var (t, found) := Branch(cover, limit, counted, mask, b, lo, i, lo);
        if !found && !t.exhausted && Feasible(cover, mask, b, lo) {
          var c := FeasibleChoice(cover, mask, b, lo, i);
        }
      }
    }
  }

  /** A branch finds a cover or shows that no candidate from c onwards starts one. */
  lemma {:induction false} BranchExact(cover: seq<set<nat>>, limit: nat, s: Search, mask: set<nat>, b: nat, lo: nat,
                                       i: nat, c: nat)
    requires Sound(cover, limit, s) && !s.exhausted && Narrow(mask) && b > 0 && i < 64 && lo <= c
    ensures var (t, found) := Branch(cover, limit, s, mask, b, lo, i, c);
            && Sound(cover, limit, t) && s.nodes <= t.nodes
            && (found ==> Feasible(cover, mask, b, lo) && !t.exhausted)
            && (!found && !t.exhausted ==>
                  forall d :: c <= d < |cover| && i in cover[d] ==> !Feasible(cover, mask - cover[d], b - 1, lo))
    decreases b, 0, |cover| - c
  {
    if c < |cover| {
      if i !in cover[c] {
        BranchExact(cover, limit, s, mask, b, lo, i, c + 1);
      } else {
        QueryExact(cover, limit, s, mask - cover[c], b - 1, lo);
        var (t, found) := Query(cover, limit, s, mask - cover[c], b - 1, lo);
        if found {
          FeasibleTake(cover, mask, b, lo, c);
        } else if !t.exhausted {
          BranchExact(cover, limit, t, mask, b, lo, i, c + 1);
        }
      }
    }
  }

  /** The memo's machine-word key, and the mathematical key it stands for. */
  datatype WordKey = WordKey(mask: bv64, budget: nat, lo: nat)

  function KeyOf(k: WordKey): Key {
    Key(Bits(k.mask), k.budget, k.lo)
  }

  function Sets(cover: seq<bv64>): (r: seq<set<nat>>)
    ensures |r| == |cover| && forall c :: 0 <= c < |r| ==> r[c] == Bits(cover[c])
  {
    seq(|cover|, c requires 0 <= c < |cover| => Bits(cover[c]))
  }

  /** The word-keyed memo answers exactly as the mathematical one. */
  ghost predicate Mirrors(words: map<WordKey, bool>, memo: map<Key, bool>) {
    forall k :: (k in words <==> KeyOf(k) in memo) && (k in words ==> words[k] == memo[KeyOf(k)])
  }

  lemma MirrorsUpdate(words: map<WordKey, bool>, memo: map<Key, bool>, k: WordKey, v: bool)
    requires Mirrors(words, memo)
    ensures Mirrors(words[k := v], memo[KeyOf(k) := v])
  {
    forall j | KeyOf(j) == KeyOf(k)
      ensures j == k
    {
      BitsInjective(j.mask, k.mask);
    }
  }

  /** The oracle object: words in, the mathematical search as its specification. */
  class FeasibilityOracle {
    const cover: seq<bv64>
    const limit: nat
    var nodes: nat
    var exhausted: bool
    var memo: map<WordKey, bool>
    ghost var search: Search

    ghost predicate Valid()
      reads this
    {
      nodes == search.nodes && exhausted == search.exhausted && Mirrors(memo, search.memo)
    }

    constructor (cover: seq<bv64>, limit: nat)
      ensures Valid() && search == FRESH
      ensures this.cover == cover && this.limit == limit
    {
      this.cover, this.limit := cover, limit;
      nodes, exhausted, memo, search := 0, false, map[], FRESH;
    }

    method Covers(mask: bv64, budget: nat, lo: nat) returns (r: bool)
      requires Valid()
      modifies this
      ensures Valid()
      ensures (search, r) == old(Query(Sets(cover), limit, search, Bits(mask), budget, lo))
      decreases budget
    {
      BitsZero(mask);
      if exhausted {
        return false;
      }
      if mask == 0 {
        return true;
      }
      if budget == 0 {
        return false;
      }
      nodes := nodes + 1;
      search := search.(nodes := nodes);
      if nodes > limit {
        exhausted := true;
        search := search.(exhausted := true);
        return false;
      }
      var key := WordKey(mask, budget, lo);
      if key in memo {
        return memo[key];
      }
      r := TryCandidates(mask, budget, lo);
      if !exhausted {
        MirrorsUpdate(memo, search.memo, key, r);
        memo := memo[key := r];
        search := search.(memo := search.memo[KeyOf(key) := r]);
      }
    }

    method TryCandidates(mask: bv64, budget: nat, lo: nat) returns (r: bool)
      requires Valid() && budget > 0 && !exhausted
      modifies this
      ensures Valid()
      ensures (search, r) == old(Branch(Sets(cover), limit, search, Bits(mask), budget, lo,
                                        LowestFrom(Bits(mask), 0), lo))
      decreases budget, 0
    {
      hide Query, Mirrors;
      var si := LowestFrom(Bits(mask), 0);
      ghost var start := search;
      r := false;
      if si < 64 {
        var c := lo;
        while c < |cover|
          invariant Valid() && !exhausted && !r
          invariant lo <= c
          invariant Branch(Sets(cover), limit, search, Bits(mask), budget, lo, si, c) ==
                    Branch(Sets(cover), limit, start, Bits(mask), budget, lo, si, lo)
        {
          BitHere(cover[c], si);
          if Meets(cover[c], One(si)) {
            BitsWithout(mask, cover[c]);
            ghost var before := search;
            r := Covers(Without(mask, cover[c]), budget - 1, lo);
            assert Query(Sets(cover), limit, before, Bits(mask) - Sets(cover)[c], budget - 1, lo) == (search, r);
            if r || exhausted {
              return;
            }
          }
          c := c + 1;
        }
      }
    }
  }

  lemma BitHere(m: bv64, i: nat)
    requires i < 64
    ensures Meets(m, One(i)) <==> i in Bits(m)
  {
    assert Bit(m, i) <==> i in Bits(m);
  }
}
