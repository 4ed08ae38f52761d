/** The localization problem: inputs, results, and what a correct answer is. */
module Problem {
  import opened Orders

  const MAX_SETS: nat := 64
  const MAX_CANDIDATES: nat := 64
  const REFERENCE_MAX_CANDIDATES: nat := 18

  datatype Input = Input(
    elementCount: nat,
    provenOk: seq<nat>,
    failureSets: seq<seq<nat>>,
    nodeBudget: nat,
    maxSolutions: nat)

  datatype Status = Resolved | Ambiguous | Indeterminate | ProvenInfeasible | InvalidInput

  datatype Reason =
    | NoReason
    | LocalizationInvalid
    | LocalizationInfeasible
    | LocalizationResolved
    | LocalizationAmbiguous
    | LocalizationSearchLimit

  datatype Result = Result(
    status: Status,
    elements: seq<nat>,
    optimalSize: nat,
    optimalityProven: bool,
    uniquenessProven: bool,
    solutionsTruncated: bool,
    solutionsFound: nat,
    searchNodes: nat,
    infeasibleWitness: nat,
    hasInfeasibleWitness: bool,
    reason: Reason)

  /** A default-constructed result. */
  const BLANK: Result :=
    Result(InvalidInput, [], 0, false, false, false, 0, 0, 0, false, NoReason)

  datatype Verdict = Ok | Invalid | Oversized | Unsupported

  predicate Candidate(inp: Input, e: nat) {
    e < inp.elementCount && e !in inp.provenOk
  }

  function Candidates(inp: Input): (s: set<nat>) {
    set e | e in Below(inp.elementCount) && e !in inp.provenOk
  }

  /** The live part of failure set i. */
  function Trace(inp: Input, i: nat): (s: set<nat>)
    requires i < |inp.failureSets|
  {
    set e | e in inp.failureSets[i] && Candidate(inp, e)
  }

  /** The set names an element of the list. */
  ghost predicate Hits(s: seq<nat>, h: set<nat>) {
    exists e :: e in s && e in h
  }

  /** A localization: candidates that meet every failure set. */
  ghost predicate HittingSet(inp: Input, h: set<nat>) {
    && h <= Candidates(inp)
    && forall i :: 0 <= i < |inp.failureSets| ==> Hits(inp.failureSets[i], h)
  }

  ghost predicate MinimumHittingSet(inp: Input, h: set<nat>) {
    HittingSet(inp, h) && forall g :: HittingSet(inp, g) ==> |h| <= |g|
  }

  /** The canonical answer: ascending, minimum, and lexicographically before every other one. */
  ghost predicate CanonicalAnswer(inp: Input, s: seq<nat>) {
    && Ascending(s)
    && MinimumHittingSet(inp, Elems(s))
    && forall t :: Ascending(t) && MinimumHittingSet(inp, Elems(t)) ==> t == s || LexLess(s, t)
  }

  /** In a canonical list every element is in range and larger than the one before. */
  ghost predicate InRangeAscending(s: seq<nat>, n: nat) {
    Ascending(s) && forall i :: 0 <= i < |s| ==> s[i] < n
  }

  /** What the solver can represent: 64 sets over 64 candidates. */
  ghost predicate FitsWord(inp: Input) {
    |inp.failureSets| <= MAX_SETS && |Candidates(inp)| <= MAX_CANDIDATES
  }

  ghost predicate ValidInput(inp: Input) {
    && inp.elementCount > 0
    && |inp.failureSets| <= MAX_SETS
    && |inp.provenOk| <= inp.elementCount
    && inp.elementCount - |inp.provenOk| <= MAX_CANDIDATES
    && inp.nodeBudget > 0
    && inp.maxSolutions > 0
    && InRangeAscending(inp.provenOk, inp.elementCount)
    && forall i :: 0 <= i < |inp.failureSets| ==> InRangeAscending(inp.failureSets[i], inp.elementCount)
  }

  /** One pass over a list, comparing each element with the bound and its predecessor. */
  method CheckList(s: seq<nat>, n: nat) returns (ok: bool)
    ensures ok <==> InRangeAscending(s, n)
  {
    var prev, first := 0, true;
    for i := 0 to |s|
      invariant InRangeAscending(s[..i], n)
      invariant first <==> i == 0
      invariant !first ==> prev == s[i - 1]
    {
      if s[i] >= n {
        assert !(s[i] < n);
        return false;
      }
      if !first && s[i] <= prev {
        assert !(s[i - 1] < s[i]);
        return false;
      }
      assert forall j :: 0 <= j < i ==> s[..i][j] == s[j];
      prev, first := s[i], false;
    }
    assert s[..|s|] == s;
    return true;
  }

  /** The checks in the source's order; the first that fails names the refusal. */
  method Validate(inp: Input) returns (v: Verdict)
    ensures v == Ok <==> ValidInput(inp)
    ensures v == Oversized <==> inp.elementCount > 0 && |inp.failureSets| > MAX_SETS
    ensures v == Unsupported <==>
            && inp.elementCount > 0 && |inp.failureSets| <= MAX_SETS
            && |inp.provenOk| <= inp.elementCount
            && inp.elementCount - |inp.provenOk| > MAX_CANDIDATES
  {
    if inp.elementCount == 0 {
      return Invalid;
    }
    if |inp.failureSets| > MAX_SETS {
      return Oversized;
    }
    if |inp.provenOk| > inp.elementCount {
      return Invalid;
    }
    if inp.elementCount - |inp.provenOk| > MAX_CANDIDATES {
      return Unsupported;
    }
    if inp.nodeBudget == 0 || inp.maxSolutions == 0 {
      return Invalid;
    }
    var ok := CheckList(inp.provenOk, inp.elementCount);
    if !ok {
      return Invalid;
    }
    for i := 0 to |inp.failureSets|
      invariant forall j :: 0 <= j < i ==> InRangeAscending(inp.failureSets[j], inp.elementCount)
    {
      ok := CheckList(inp.failureSets[i], inp.elementCount);
      if !ok {
        return Invalid;
      }
    }
    return Ok;
  }

  /** The candidate count that validation bounds is the real one. */
  lemma CandidateCount(inp: Input)
    requires InRangeAscending(inp.provenOk, inp.elementCount)
    ensures |Candidates(inp)| == inp.elementCount - |inp.provenOk|
  {
    var all := Below(inp.elementCount);
    AscendingCount(inp.provenOk);
    assert Elems(inp.provenOk) <= all;
    assert Candidates(inp) == all - Elems(inp.provenOk);
  }

  lemma ValidFits(inp: Input)
    requires ValidInput(inp)
    ensures FitsWord(inp)
  {
    CandidateCount(inp);
  }

  lemma HitByTrace(inp: Input, i: nat, h: set<nat>)
    requires i < |inp.failureSets| && h <= Candidates(inp)
    ensures Hits(inp.failureSets[i], h) <==> Trace(inp, i) * h != {}
  {
    var t := Trace(inp, i) * h;
    if e :| e in inp.failureSets[i] && e in h {
      assert e in t;
    }
    if e :| e in t {
      assert e in inp.failureSets[i] && e in h;
    }
  }

  /** Hitting every failure set is meeting every live part. */
  lemma HittingByTraces(inp: Input, h: set<nat>)
    requires h <= Candidates(inp)
    ensures HittingSet(inp, h) <==>
            forall i :: 0 <= i < |inp.failureSets| ==> Trace(inp, i) * h != {}
  {
    forall i | 0 <= i < |inp.failureSets| {
      HitByTrace(inp, i, h);
    }
  }

  /** An empty trace cannot be hit. */
  lemma EmptyTraceInfeasible(inp: Input, i: nat, h: set<nat>)
    requires i < |inp.failureSets| && Trace(inp, i) == {}
    ensures !HittingSet(inp, h)
  {
    if h <= Candidates(inp) {
      HitByTrace(inp, i, h);
    }
  }
}
