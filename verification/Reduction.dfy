/** The reduced constraint system: live candidates, inclusion-minimal sets, and their masks. */
module Reduction {
  import opened Words
  import opened Orders
  import opened Problem

  datatype Raw = Raw(elems: seq<nat>, origin: nat)

  datatype Reduced = Reduced(
    candidates: seq<nat>,
    sets: seq<bv64>,
    rawSets: seq<seq<nat>>,
    setOrigin: seq<nat>,
    cover: seq<bv64>,
    fullMask: bv64,
    minSetOrigin: nat,
    hasEmptySet: bool,
    emptySetOrigin: nat)

  /** A non-empty live part with no smaller non-empty live part inside it. */
  ghost predicate MinimalTrace(inp: Input, t: set<nat>) {
    && t != {}
    && (exists i :: 0 <= i < |inp.failureSets| && Trace(inp, i) == t)
    && forall i :: 0 <= i < |inp.failureSets| && Trace(inp, i) != {} && Trace(inp, i) <= t ==> Trace(inp, i) == t
  }

  /** The kept sets: the minimal live parts, each once, by size and then lexicographically. */
  ghost predicate KeptSets(inp: Input, kept: seq<seq<nat>>) {
    && (forall j :: 0 <= j < |kept| ==> Ascending(kept[j]) && MinimalTrace(inp, Elems(kept[j])))
    && StrictlySorted(SizeLexLess, kept)
    && forall t :: MinimalTrace(inp, t) ==> exists j :: 0 <= j < |kept| && Elems(kept[j]) == t
  }

  /** Positions in a list whose element is in the set. */
  function Places(list: seq<nat>, t: set<nat>): set<nat> {
    set i | 0 <= i < |list| && list[i] in t
  }

  /** The kept sets that contain element e. */
  function Holders(kept: seq<seq<nat>>, e: nat): set<nat> {
    set j | 0 <= j < |kept| && e in kept[j]
  }

  ghost predicate FirstEmpty(inp: Input, has: bool, origin: nat) {
    && (has <==> exists i :: 0 <= i < |inp.failureSets| && Trace(inp, i) == {})
    && (has ==> origin < |inp.failureSets| && Trace(inp, origin) == {} &&
                forall i :: 0 <= i < origin ==> Trace(inp, i) != {})
    && (!has ==> origin == 0)
  }

  ghost predicate SetWords(candidates: seq<nat>, raws: seq<seq<nat>>, sets: seq<bv64>) {
    |sets| <= |raws| && forall j :: 0 <= j < |sets| ==> Bits(sets[j]) == Places(candidates, Elems(raws[j]))
  }

  ghost predicate CoverWords(candidates: seq<nat>, raws: seq<seq<nat>>, cover: seq<bv64>) {
    |cover| == |candidates| && forall c :: 0 <= c < |cover| ==> Bits(cover[c]) == Holders(raws, candidates[c])
  }

  /** The words say, position by position, which kept set holds which candidate. */
  ghost predicate Masks(candidates: seq<nat>, raws: seq<seq<nat>>, sets: seq<bv64>, cover: seq<bv64>, full: bv64) {
    && |sets| == |raws| <= WIDTH && |candidates| <= WIDTH
    && SetWords(candidates, raws, sets)
    && CoverWords(candidates, raws, cover)
    && Bits(full) == Below(|raws|)
  }

  /** Each kept set is the live part of the failure set it is attributed to. */
  ghost predicate Attributed(inp: Input, raws: seq<seq<nat>>, origins: seq<nat>) {
    && |origins| == |raws|
    && forall j :: 0 <= j < |raws| ==>
         origins[j] < |inp.failureSets| && Trace(inp, origins[j]) == Elems(raws[j])
  }

  ghost predicate IsReduction(inp: Input, r: Reduced) {
    && Ascending(r.candidates) && Elems(r.candidates) == Candidates(inp)
    && KeptSets(inp, r.rawSets)
    && Attributed(inp, r.rawSets, r.setOrigin)
    && r.minSetOrigin == (if r.rawSets == [] then 0 else r.setOrigin[0])
    && FirstEmpty(inp, r.hasEmptySet, r.emptySetOrigin)
    && Masks(r.candidates, r.rawSets, r.sets, r.cover, r.fullMask)
  }

  // ---- what the reduction preserves ----

  lemma {:induction false} MinimalInside(inp: Input, i: nat) returns (t: set<nat>)
    requires i < |inp.failureSets| && Trace(inp, i) != {}
    ensures MinimalTrace(inp, t) && t <= Trace(inp, i)
    decreases |Trace(inp, i)|
  {
    t := Trace(inp, i);
    if k :| 0 <= k < |inp.failureSets| && Trace(inp, k) != {} && Trace(inp, k) < t {
      SubsetSmaller(Trace(inp, k), t);
      t := MinimalInside(inp, k);
    }
  }

  /** A set of candidates hits every failure set exactly when it hits every kept one. */
  lemma KeptPreserveHitting(inp: Input, kept: seq<seq<nat>>, h: set<nat>)
    requires KeptSets(inp, kept) && h <= Candidates(inp)
    requires forall i :: 0 <= i < |inp.failureSets| ==> Trace(inp, i) != {}
    ensures HittingSet(inp, h) <==> forall j :: 0 <= j < |kept| ==> Elems(kept[j]) * h != {}
  {
    HittingByTraces(inp, h);
    if HittingSet(inp, h) {
      forall j | 0 <= j < |kept|
        ensures Elems(kept[j]) * h != {}
      {
        assert MinimalTrace(inp, Elems(kept[j]));
        var i :| 0 <= i < |inp.failureSets| && Trace(inp, i) == Elems(kept[j]);
        assert Trace(inp, i) * h != {};
      }
    }
    if forall j :: 0 <= j < |kept| ==> Elems(kept[j]) * h != {} {
      forall i | 0 <= i < |inp.failureSets|
        ensures Trace(inp, i) * h != {}
      {
        var t := MinimalInside(inp, i);
        var j :| 0 <= j < |kept| && Elems(kept[j]) == t;
        assert t * h <= Trace(inp, i) * h;
      }
    }
  }

  ghost predicate Contains(t: set<nat>, b: Input) {
    exists k :: 0 <= k < |b.failureSets| && Trace(b, k) <= t
  }

  /** Every live part of a contains some live part of b. */
  ghost predicate Refines(a: Input, b: Input) {
    forall i {:trigger Contains(Trace(a, i), b)} :: 0 <= i < |a.failureSets| ==> Contains(Trace(a, i), b)
  }

  /** The same problem: each failure set of one holds, live, some failure set of the other. */
  ghost predicate SameProblem(a: Input, b: Input) {
    && Candidates(a) == Candidates(b)
    && a.nodeBudget == b.nodeBudget && a.maxSolutions == b.maxSolutions
    && Refines(a, b) && Refines(b, a)
  }

  lemma SameAsItself(inp: Input)
    ensures SameProblem(inp, inp)
  {
    forall i | 0 <= i < |inp.failureSets|
      ensures Contains(Trace(inp, i), inp)
    {}
  }

  /** The failure sets in another order are the same problem. */
  lemma Permuted(a: Input, sets: seq<seq<nat>>)
    requires multiset(sets) == multiset(a.failureSets)
    ensures SameProblem(a, a.(failureSets := sets))
  {
    var b := a.(failureSets := sets);
    PermutedRefines(a, b);
    PermutedRefines(b, a);
  }

  lemma PermutedRefines(a: Input, b: Input)
    requires multiset(a.failureSets) == multiset(b.failureSets)
    requires a.elementCount == b.elementCount && a.provenOk == b.provenOk
    ensures Refines(a, b)
  {
    forall i | 0 <= i < |a.failureSets|
      ensures Contains(Trace(a, i), b)
    {
      assert a.failureSets[i] in multiset(a.failureSets);
      var k :| 0 <= k < |b.failureSets| && b.failureSets[k] == a.failureSets[i];
      assert Trace(b, k) == Trace(a, i);
    }
  }

  /** A superset of a failure set, added to the others, adds nothing. */
  lemma SupersetAdded(a: Input, i: nat, s: seq<nat>)
    requires i < |a.failureSets| && Elems(a.failureSets[i]) <= Elems(s)
    ensures SameProblem(a, a.(failureSets := a.failureSets + [s]))
  {
    var b := a.(failureSets := a.failureSets + [s]);
    forall k | 0 <= k < |a.failureSets|
      ensures Contains(Trace(a, k), b)
    {
      assert Trace(b, k) == Trace(a, k);
    }
    forall k | 0 <= k < |b.failureSets|
      ensures Contains(Trace(b, k), a)
    {
      if k < |a.failureSets| {
        assert Trace(a, k) == Trace(b, k);
      } else {
        TraceGrows(a, b, i, k);
      }
    }
  }

  lemma TraceGrows(a: Input, b: Input, i: nat, k: nat)
    requires a.elementCount == b.elementCount && a.provenOk == b.provenOk
    requires i < |a.failureSets| && k < |b.failureSets| && Elems(a.failureSets[i]) <= Elems(b.failureSets[k])
    ensures Trace(a, i) <= Trace(b, k)
  {
    forall e | e in Trace(a, i)
      ensures e in Trace(b, k)
    {
      assert e in Elems(a.failureSets[i]);
    }
  }

  /** A failure set told twice is the same problem. */
  lemma Repeated(a: Input, i: nat)
    requires i < |a.failureSets|
    ensures SameProblem(a, a.(failureSets := a.failureSets + [a.failureSets[i]]))
  {
    SupersetAdded(a, i, a.failureSets[i]);
  }

  /** A failure set enlarged in place is another problem: what explains the larger need not explain the smaller. */
  lemma EnlargingMatters(a: Input, b: Input)
    requires a.elementCount == 2 && a.provenOk == [] && a.failureSets == [[0]] && b == a.(failureSets := [[0, 1]])
    ensures HittingSet(b, {1}) && !HittingSet(a, {1}) && !SameProblem(a, b)
  {
    assert Candidates(b) == {0, 1} == Candidates(a);
    assert a.failureSets[0] == [0] && b.failureSets[0] == [0, 1];
    assert 1 in b.failureSets[0] && Hits(b.failureSets[0], {1});
    assert !Hits(a.failureSets[0], {1});
    assert 1 in Trace(b, 0) && 0 in Trace(b, 0) && Trace(a, 0) == {0};
    assert !Contains(Trace(a, 0), b);
  }

  lemma RefinesEmpty(a: Input, b: Input, i: nat) returns (k: nat)
    requires Refines(a, b) && i < |a.failureSets| && Trace(a, i) == {}
    ensures k < |b.failureSets| && Trace(b, k) == {}
  {
    assert Contains(Trace(a, i), b);
    k :| 0 <= k < |b.failureSets| && Trace(b, k) <= Trace(a, i);
  }

  lemma MinimalCarries(a: Input, b: Input, t: set<nat>)
    requires Refines(a, b) && Refines(b, a) && MinimalTrace(a, t)
    requires forall i :: 0 <= i < |a.failureSets| ==> Trace(a, i) != {}
    requires forall i :: 0 <= i < |b.failureSets| ==> Trace(b, i) != {}
    ensures MinimalTrace(b, t)
  {
    var i :| 0 <= i < |a.failureSets| && Trace(a, i) == t;
    assert Contains(Trace(a, i), b);
    var k :| 0 <= k < |b.failureSets| && Trace(b, k) <= Trace(a, i);
    var u := MinimalInside(b, k);
    var m :| 0 <= m < |b.failureSets| && Trace(b, m) == u;
    assert Contains(Trace(b, m), a);
    var n :| 0 <= n < |a.failureSets| && Trace(a, n) <= Trace(b, m);
    assert Trace(a, n) <= t;
  }

  /** The kept sets do not depend on how the constraints were written down. */
  lemma KeptCanonical(a: Input, b: Input, ka: seq<seq<nat>>, kb: seq<seq<nat>>)
    requires Refines(a, b) && Refines(b, a)
    requires forall i :: 0 <= i < |a.failureSets| ==> Trace(a, i) != {}
    requires forall i :: 0 <= i < |b.failureSets| ==> Trace(b, i) != {}
    requires KeptSets(a, ka) && KeptSets(b, kb)
    ensures ka == kb
  {
    forall x | x in ka
      ensures x in kb
    {
      MinimalCarries(a, b, Elems(x));
      KeptMember(b, kb, x);
    }
    forall x | x in kb
      ensures x in ka
    {
      MinimalCarries(b, a, Elems(x));
      KeptMember(a, ka, x);
    }
    SizeLexIsStrict();
    SortedUnique(SizeLexLess, ka, kb);
  }

  lemma KeptMember(inp: Input, kept: seq<seq<nat>>, x: seq<nat>)
    requires KeptSets(inp, kept) && Ascending(x) && MinimalTrace(inp, Elems(x))
    ensures x in kept
  {
    var j :| 0 <= j < |kept| && Elems(kept[j]) == Elems(x);
    AscendingUnique(kept[j], x);
  }

  lemma WordsEqual(a: seq<bv64>, b: seq<bv64>)
    requires |a| == |b| && forall i :: 0 <= i < |a| ==> Bits(a[i]) == Bits(b[i])
    ensures a == b
  {
    forall i | 0 <= i < |a|
      ensures a[i] == b[i]
    {
      BitsInjective(a[i], b[i]);
    }
  }

  /** Two ways of writing the same problem have the same reduced system, apart from which failure set
      each kept one is attributed to. */
  lemma ReductionCanonical(a: Input, b: Input, ra: Reduced, rb: Reduced)
    requires SameProblem(a, b) && IsReduction(a, ra) && IsReduction(b, rb)
    ensures ra.hasEmptySet == rb.hasEmptySet
    ensures ra.candidates == rb.candidates
    ensures !ra.hasEmptySet ==>
              ra.rawSets == rb.rawSets && ra.sets == rb.sets && ra.cover == rb.cover && ra.fullMask == rb.fullMask
  {
    AscendingUnique(ra.candidates, rb.candidates);
    if ra.hasEmptySet {
      var k := RefinesEmpty(a, b, ra.emptySetOrigin);
    }
    if rb.hasEmptySet {
      var k := RefinesEmpty(b, a, rb.emptySetOrigin);
    }
    if !ra.hasEmptySet {
      KeptCanonical(a, b, ra.rawSets, rb.rawSets);
      WordsEqual(ra.sets, rb.sets);
      WordsEqual(ra.cover, rb.cover);
      BitsInjective(ra.fullMask, rb.fullMask);
    }
  }

  // ---- the computation ----

  ghost predicate RawOf(inp: Input, x: Raw) {
    && x.origin < |inp.failureSets|
    && Ascending(x.elems) && x.elems != []
    && Elems(x.elems) == Trace(inp, x.origin)
  }

  /** Live candidates, ascending, from a table of proven-healthy marks. */
  method LiveCandidates(inp: Input) returns (ok: seq<bool>, candidates: seq<nat>)
    ensures |ok| == inp.elementCount + 1
    ensures forall e :: 0 <= e < inp.elementCount ==> (ok[e] <==> e in inp.provenOk)
    ensures Ascending(candidates) && Elems(candidates) == Candidates(inp)
  {
    ok := seq(inp.elementCount + 1, _ => false);
    for i := 0 to |inp.provenOk|
      invariant |ok| == inp.elementCount + 1
      invariant forall e :: 0 <= e < inp.elementCount ==> (ok[e] <==> e in inp.provenOk[..i])
    {
      if inp.provenOk[i] < inp.elementCount {
        ok := ok[inp.provenOk[i] := true];
      }
    }
    assert inp.provenOk[..|inp.provenOk|] == inp.provenOk;
    candidates := [];
    for e := 0 to inp.elementCount
      invariant Ascending(candidates)
      invariant forall k :: 0 <= k < |candidates| ==> candidates[k] < e
      invariant forall c :: c in candidates <==> 0 <= c < e && c !in inp.provenOk
    {
      if !ok[e] {
        candidates := candidates + [e];
      }
    }
  }

  /** The live part of one failure set, in the order given. */
  method Filter(inp: Input, ok: seq<bool>, i: nat) returns (s: seq<nat>)
    requires i < |inp.failureSets| && |ok| == inp.elementCount + 1
    requires forall e :: 0 <= e < inp.elementCount ==> (ok[e] <==> e in inp.provenOk)
    ensures Elems(s) == Trace(inp, i)
  {
    var f := inp.failureSets[i];
    s := [];
    for j := 0 to |f|
      invariant forall e :: e in s <==> e in f[..j] && Candidate(inp, e)
    {
      if f[j] < inp.elementCount && !ok[f[j]] {
        s := s + [f[j]];
      }
    }
    assert f[..|f|] == f;
  }

  method CollectRaw(inp: Input, ok: seq<bool>) returns (raw: seq<Raw>, has: bool, origin: nat)
    requires |ok| == inp.elementCount + 1
    requires forall e :: 0 <= e < inp.elementCount ==> (ok[e] <==> e in inp.provenOk)
    ensures |raw| <= |inp.failureSets|
    ensures forall x :: x in raw ==> RawOf(inp, x)
    ensures Traced(inp, raw)
    ensures FirstEmpty(inp, has, origin)
  {
    raw, has, origin := [], false, 0;
    for i := 0 to |inp.failureSets|
      invariant |raw| <= i
      invariant forall x :: x in raw ==> RawOf(inp, x)
      invariant forall n :: 0 <= n < i && Trace(inp, n) != {} ==> HasOrigin(raw, n)
      invariant has ==> origin < i && Trace(inp, origin) == {} &&
                        forall n :: 0 <= n < origin ==> Trace(inp, n) != {}
      invariant !has ==> origin == 0 && forall n :: 0 <= n < i ==> Trace(inp, n) != {}
    {
      var f := Filter(inp, ok, i);
      var s := SortUnique(f);
      SortUniqueSpec(f);
      if s == [] {
        assert Trace(inp, i) == Elems(s) == {};
        if !has {
          has, origin := true, i;
        }
      } else {
        assert s[0] in Trace(inp, i);
        ghost var before := raw;
        raw := raw + [Raw(s, i)];
        assert raw[|before|].origin == i;
        forall n | HasOrigin(before, n)
          ensures HasOrigin(raw, n)
        {
          var k :| 0 <= k < |before| && before[k].origin == n;
          assert raw[k].origin == n;
        }
      }
    }
  }

  /** Every non-empty live part has its entry. */
  ghost predicate Traced(inp: Input, order: seq<Raw>) {
    forall i :: 0 <= i < |inp.failureSets| && Trace(inp, i) != {} ==> HasOrigin(order, i)
  }

  ghost predicate HasOrigin(order: seq<Raw>, i: nat) {
    exists k :: 0 <= k < |order| && order[k].origin == i
  }

  ghost predicate InOrder(s: seq<Raw>) {
    forall i, j :: 0 <= i < j < |s| ==> !SizeLexLess(s[j].elems, s[i].elems)
  }

  lemma AfterInsertion(x: Raw, s: seq<Raw>, i: nat, j: nat)
    requires InOrder(s) && i <= j < |s| && !SizeLexLess(s[i].elems, x.elems)
    ensures !SizeLexLess(s[j].elems, x.elems)
  {
    if SizeLexLess(s[j].elems, x.elems) && i < j {
      SizeLexTotal(s[i].elems, x.elems);
      if SizeLexLess(x.elems, s[i].elems) {
        SizeLexTransitive(s[j].elems, x.elems, s[i].elems);
      }
    }
  }

  lemma InsertInOrder(x: Raw, s: seq<Raw>, i: nat)
    requires InOrder(s) && i <= |s|
    requires forall k :: 0 <= k < i ==> SizeLexLess(s[k].elems, x.elems)
    requires i < |s| ==> !SizeLexLess(s[i].elems, x.elems)
    ensures InOrder(s[..i] + [x] + s[i..])
  {
    var r := s[..i] + [x] + s[i..];
    forall a, b | 0 <= a < b < |r|
      ensures !SizeLexLess(r[b].elems, r[a].elems)
    {
      if b == i {
        SizeLexAsymmetric(s[a].elems, x.elems);
      } else if a == i {
        AfterInsertion(x, s, i, b - 1);
      }
    }
  }

  method InsertRaw(x: Raw, s: seq<Raw>) returns (r: seq<Raw>)
    requires InOrder(s)
    ensures InOrder(r) && multiset(r) == multiset(s) + multiset{x}
  {
    var i := 0;
    while i < |s| && SizeLexLess(s[i].elems, x.elems)
      invariant 0 <= i <= |s|
      invariant forall k :: 0 <= k < i ==> SizeLexLess(s[k].elems, x.elems)
    {
      i := i + 1;
    }
    r := s[..i] + [x] + s[i..];
    assert s == s[..i] + s[i..];
    InsertInOrder(x, s, i);
  }

  /** std::sort by size and contents; entries with equal contents come in any order. */
  method SortRaw(raw: seq<Raw>) returns (s: seq<Raw>)
    ensures InOrder(s) && multiset(s) == multiset(raw)
  {
    s := [];
    for i := 0 to |raw|
      invariant InOrder(s) && multiset(s) == multiset(raw[..i])
    {
      s := InsertRaw(raw[i], s);
      assert raw[..i + 1] == raw[..i] + [raw[i]];
    }
    assert raw[..|raw|] == raw;
  }

  ghost predicate Dominated(kept: seq<Raw>, t: set<nat>) {
    exists k :: 0 <= k < |kept| && Elems(kept[k].elems) <= t
  }

  /** No kept set lies inside another, and they come in strict order. */
  ghost predicate Antichain(kept: seq<Raw>) {
    && (forall a, b :: 0 <= a < |kept| && 0 <= b < |kept| && a != b ==>
          !(Elems(kept[a].elems) <= Elems(kept[b].elems)))
    && (forall a, b :: 0 <= a < b < |kept| ==> SizeLexLess(kept[a].elems, kept[b].elems))
  }

  function Contents(kept: seq<Raw>): (r: seq<seq<nat>>) {
    seq(|kept|, i requires 0 <= i < |kept| => kept[i].elems)
  }

  function Origins(kept: seq<Raw>): (r: seq<nat>) {
    seq(|kept|, i requires 0 <= i < |kept| => kept[i].origin)
  }

  lemma ExtendAntichain(inp: Input, kept: seq<Raw>, x: Raw)
    requires Antichain(kept) && RawOf(inp, x) && !Dominated(kept, Elems(x.elems))
    requires forall k :: 0 <= k < |kept| ==> RawOf(inp, kept[k]) && !SizeLexLess(x.elems, kept[k].elems)
    ensures Antichain(kept + [x])
  {
    forall k | 0 <= k < |kept|
      ensures !(Elems(kept[k].elems) <= Elems(x.elems))
      ensures !(Elems(x.elems) <= Elems(kept[k].elems))
      ensures SizeLexLess(kept[k].elems, x.elems)
    {
      var y := kept[k];
      assert !(Elems(y.elems) <= Elems(x.elems));
      SizeLexTotal(y.elems, x.elems);
      if Elems(x.elems) <= Elems(y.elems) {
        AscendingCount(x.elems);
        AscendingCount(y.elems);
        SubsetSmaller(Elems(x.elems), Elems(y.elems));
      }
    }
  }

  lemma KeptAreMinimal(inp: Input, order: seq<Raw>, kept: seq<Raw>, k: nat)
    requires k < |kept| && Antichain(kept) && RawOf(inp, kept[k])
    requires forall m :: 0 <= m < |order| ==> RawOf(inp, order[m]) && Dominated(kept, Elems(order[m].elems))
    requires Traced(inp, order)
    ensures MinimalTrace(inp, Elems(kept[k].elems))
  {
    var t := Elems(kept[k].elems);
    assert kept[k].elems[0] in t;
    forall i | 0 <= i < |inp.failureSets| && Trace(inp, i) != {} && Trace(inp, i) <= t
      ensures Trace(inp, i) == t
    {
      assert HasOrigin(order, i);
      var m :| 0 <= m < |order| && order[m].origin == i;
      assert Dominated(kept, Elems(order[m].elems));
      var j :| 0 <= j < |kept| && Elems(kept[j].elems) <= Elems(order[m].elems);
      assert j == k;
    }
  }

  lemma MinimalAreKept(inp: Input, order: seq<Raw>, kept: seq<Raw>, t: set<nat>)
    requires MinimalTrace(inp, t)
    requires forall k :: 0 <= k < |kept| ==> RawOf(inp, kept[k])
    requires forall m :: 0 <= m < |order| ==> RawOf(inp, order[m]) && Dominated(kept, Elems(order[m].elems))
    requires Traced(inp, order)
    ensures exists j :: 0 <= j < |kept| && Elems(kept[j].elems) == t
  {
    var i :| 0 <= i < |inp.failureSets| && Trace(inp, i) == t;
    assert HasOrigin(order, i);
    var m :| 0 <= m < |order| && order[m].origin == i;
    assert Dominated(kept, Elems(order[m].elems));
    var j :| 0 <= j < |kept| && Elems(kept[j].elems) <= Elems(order[m].elems);
    assert kept[j].elems[0] in Elems(kept[j].elems);
    assert Trace(inp, kept[j].origin) == t;
  }

  method IsDominated(inp: Input, kept: seq<Raw>, x: Raw) returns (d: bool)
    requires RawOf(inp, x) && forall k :: 0 <= k < |kept| ==> RawOf(inp, kept[k])
    ensures d <==> Dominated(kept, Elems(x.elems))
  {
    for k := 0 to |kept|
      invariant forall j :: 0 <= j < k ==> !(Elems(kept[j].elems) <= Elems(x.elems))
    {
      if |kept[k].elems| <= |x.elems| && Elems(kept[k].elems) <= Elems(x.elems) {
        return true;
      }
      AscendingCount(x.elems);
      AscendingCount(kept[k].elems);
      if Elems(kept[k].elems) <= Elems(x.elems) {
        SubsetNoLarger(Elems(kept[k].elems), Elems(x.elems));
      }
    }
    return false;
  }

  method KeepMinimal(inp: Input, order: seq<Raw>) returns (kept: seq<Raw>)
    requires InOrder(order) && forall m :: 0 <= m < |order| ==> RawOf(inp, order[m])
    requires Traced(inp, order)
    ensures |kept| <= |order| && KeptSets(inp, Contents(kept))
    ensures forall k :: 0 <= k < |kept| ==> RawOf(inp, kept[k])
  {
    kept := [];
    for n := 0 to |order|
      invariant |kept| <= n && KeptSoFar(inp, order, kept, n)
    {
      var dominated := IsDominated(inp, kept, order[n]);
      if !dominated {
        KeepOne(inp, order, kept, n);
        kept := kept + [order[n]];
      }
    }
    KeptIsKeptSets(inp, order, kept);
  }

  /** After n entries: an antichain of entries seen, below every entry seen. */
  ghost predicate KeptSoFar(inp: Input, order: seq<Raw>, kept: seq<Raw>, n: nat)
    requires n <= |order|
  {
    && Antichain(kept)
    && (forall k :: 0 <= k < |kept| ==> RawOf(inp, kept[k]) && SeenBefore(order, kept[k], n))
    && (forall m :: 0 <= m < n ==> Dominated(kept, Elems(order[m].elems)))
  }

  ghost predicate SeenBefore(order: seq<Raw>, x: Raw, n: nat)
    requires n <= |order|
  {
    exists m :: 0 <= m < n && order[m] == x
  }

  lemma KeepOne(inp: Input, order: seq<Raw>, kept: seq<Raw>, n: nat)
    requires n < |order| && InOrder(order) && RawOf(inp, order[n])
    requires KeptSoFar(inp, order, kept, n) && !Dominated(kept, Elems(order[n].elems))
    ensures KeptSoFar(inp, order, kept + [order[n]], n + 1)
  {
    var r := kept + [order[n]];
    forall k | 0 <= k < |kept|
      ensures SeenBefore(order, kept[k], n + 1) && !SizeLexLess(order[n].elems, kept[k].elems)
    {
      assert SeenBefore(order, kept[k], n);
      var m :| 0 <= m < n && order[m] == kept[k];
    }
    assert SeenBefore(order, order[n], n + 1);
    ExtendAntichain(inp, kept, order[n]);
    forall m | 0 <= m < n + 1
      ensures Dominated(r, Elems(order[m].elems))
    {
      if m < n {
        assert Dominated(kept, Elems(order[m].elems));
        var k :| 0 <= k < |kept| && Elems(kept[k].elems) <= Elems(order[m].elems);
        assert r[k] == kept[k];
      } else {
        assert Elems(r[|kept|].elems) <= Elems(order[n].elems);
      }
    }
  }

  lemma KeptIsKeptSets(inp: Input, order: seq<Raw>, kept: seq<Raw>)
    requires Antichain(kept) && forall k :: 0 <= k < |kept| ==> RawOf(inp, kept[k])
    requires forall m :: 0 <= m < |order| ==> RawOf(inp, order[m]) && Dominated(kept, Elems(order[m].elems))
    requires Traced(inp, order)
    ensures KeptSets(inp, Contents(kept))
  {
    var c := Contents(kept);
    forall j | 0 <= j < |c|
      ensures Ascending(c[j]) && MinimalTrace(inp, Elems(c[j]))
    {
      KeptAreMinimal(inp, order, kept, j);
    }
    forall t | MinimalTrace(inp, t)
      ensures exists j :: 0 <= j < |c| && Elems(c[j]) == t
    {
      MinimalAreKept(inp, order, kept, t);
      var j :| 0 <= j < |kept| && Elems(kept[j].elems) == t;
      assert c[j] == kept[j].elems;
    }
  }

  /** std::lower_bound on an ascending list. */
  function LowerBound(list: seq<nat>, e: nat, i: nat): (r: nat)
    requires i <= |list|
    ensures i <= r <= |list|
    ensures forall k :: i <= k < r ==> list[k] < e
    ensures r < |list| ==> e <= list[r]
    decreases |list| - i
  {
    if i == |list| || e <= list[i] then i else LowerBound(list, e, i + 1)
  }

  /** A list of elements as a word over candidate positions; others are skipped. */
  method ElementsToMask(candidates: seq<nat>, elems: seq<nat>) returns (m: bv64)
    requires Ascending(candidates) && |candidates| <= WIDTH
    ensures Bits(m) == Places(candidates, Elems(elems))
  {
    m := 0;
    BitsZero(0);
    for i := 0 to |elems|
      invariant Bits(m) == Places(candidates, Elems(elems[..i]))
    {
      var e := elems[i];
      var at := LowerBound(candidates, e, 0);
      ghost var before := m;
      assert Elems(elems[..i + 1]) == Elems(elems[..i]) + {e};
      if at < |candidates| && candidates[at] == e {
        m := WithBit(m, at);
        BitsWithBit(before, at);
        assert Places(candidates, {e}) == {at};
      } else {
        assert Places(candidates, {e}) == {};
      }
      PlacesUnion(candidates, Elems(elems[..i]), {e});
    }
    assert elems[..|elems|] == elems;
  }

  lemma PlacesUnion(list: seq<nat>, s: set<nat>, t: set<nat>)
    ensures Places(list, s + t) == Places(list, s) + Places(list, t)
  {}

  /** Adds set number s, whose members are at the positions of m, to every member's cover word. */
  method AddToCover(candidates: seq<nat>, raws: seq<seq<nat>>, s: nat, m: bv64, cover: seq<bv64>) returns (r: seq<bv64>)
    requires s < |raws| <= WIDTH && |candidates| <= WIDTH
    requires Bits(m) == Places(candidates, Elems(raws[s]))
    requires CoverWords(candidates, raws[..s], cover)
    ensures CoverWords(candidates, raws[..s + 1], r)
  {
    r := cover;
    for c := 0 to |candidates|
      invariant |r| == |candidates|
      invariant forall k :: 0 <= k < c ==> Bits(r[k]) == Holders(raws[..s + 1], candidates[k])
      invariant forall k :: c <= k < |r| ==> r[k] == cover[k]
    {
      HoldersStep(raws, s, candidates[c]);
      assert Bit(m, c) <==> c in Bits(m);
      if Meets(m, One(c)) {
        BitsWithBit(r[c], s);
        r := r[c := WithBit(r[c], s)];
      }
    }
  }

  lemma HoldersStep(raws: seq<seq<nat>>, s: nat, e: nat)
    requires s < |raws|
    ensures Holders(raws[..s + 1], e) == Holders(raws[..s], e) + (if e in Elems(raws[s]) then {s} else {})
  {}

  method BuildMasks(candidates: seq<nat>, raws: seq<seq<nat>>) returns (sets: seq<bv64>, cover: seq<bv64>, full: bv64)
    requires Ascending(candidates) && |candidates| <= WIDTH && |raws| <= WIDTH
    ensures Masks(candidates, raws, sets, cover, full)
  {
    sets := [];
    cover, full := EmptyMasks(candidates, raws);
    for s := 0 to |raws|
      invariant |sets| == s && SetWords(candidates, raws, sets)
      invariant CoverWords(candidates, raws[..s], cover)
      invariant Bits(full) == Below(s)
    {
      var m := ElementsToMask(candidates, raws[s]);
      cover := AddToCover(candidates, raws, s, m, cover);
      full := AddSet(full, s);
      SetWordsStep(candidates, raws, sets, m);
      sets := sets + [m];
    }
    assert raws[..|raws|] == raws;
  }

  lemma SetWordsStep(candidates: seq<nat>, raws: seq<seq<nat>>, sets: seq<bv64>, m: bv64)
    requires SetWords(candidates, raws, sets) && |sets| < |raws|
    requires Bits(m) == Places(candidates, Elems(raws[|sets|]))
    ensures SetWords(candidates, raws, sets + [m])
  {}

  method EmptyMasks(candidates: seq<nat>, raws: seq<seq<nat>>) returns (cover: seq<bv64>, full: bv64)
    ensures CoverWords(candidates, raws[..0], cover)
    ensures Bits(full) == Below(0)
  {
    full := 0;
    BitsZero(full);
    cover := seq(|candidates|, _ => full);
  }

  method AddSet(full: bv64, s: nat) returns (r: bv64)
    requires s < WIDTH && Bits(full) == Below(s)
    ensures Bits(r) == Below(s + 1)
  {
    BitsWithBit(full, s);
    r := WithBit(full, s);
  }

  lemma ContentsAttributed(inp: Input, kept: seq<Raw>)
    requires forall k :: 0 <= k < |kept| ==> RawOf(inp, kept[k])
    ensures Attributed(inp, Contents(kept), Origins(kept))
  {}

  lemma SortedKeepsEntries(inp: Input, raw: seq<Raw>, order: seq<Raw>)
    requires multiset(order) == multiset(raw)
    requires (forall x :: x in raw ==> RawOf(inp, x)) && Traced(inp, raw)
    ensures |order| == |raw|
    ensures (forall m :: 0 <= m < |order| ==> RawOf(inp, order[m])) && Traced(inp, order)
  {
    assert |order| == |multiset(order)| == |multiset(raw)| == |raw|;
    forall m | 0 <= m < |order|
      ensures RawOf(inp, order[m])
    {
      assert order[m] in multiset(order);
    }
    forall i | HasOrigin(raw, i)
      ensures HasOrigin(order, i)
    {
      var k :| 0 <= k < |raw| && raw[k].origin == i;
      assert raw[k] in multiset(raw);
      var m :| 0 <= m < |order| && order[m] == raw[k];
    }
  }

  lemma CandidateWidth(inp: Input, candidates: seq<nat>)
    requires Ascending(candidates) && Elems(candidates) == Candidates(inp)
    ensures |candidates| == |Candidates(inp)|
  {
    AscendingCount(candidates);
  }

  /** Derives the reduced system; any order of equal sets may decide which one a kept set comes from. */
  method Reduce(inp: Input) returns (r: Reduced)
    requires FitsWord(inp)
    ensures IsReduction(inp, r)
  {
    var ok, candidates := LiveCandidates(inp);
    CandidateWidth(inp, candidates);
    var raw, has, origin := CollectRaw(inp, ok);
    var order := SortRaw(raw);
    SortedKeepsEntries(inp, raw, order);
    var kept := KeepMinimal(inp, order);
    ContentsAttributed(inp, kept);
    var sets, cover, full := BuildMasks(candidates, Contents(kept));
    r := Reduced(candidates, sets, Contents(kept), Origins(kept), cover, full,
                 if kept == [] then 0 else kept[0].origin, has, origin);
  }
}
