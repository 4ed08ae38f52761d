/** What the engine publishes: a solver's result after independent validation. */
module Publication {
  import opened Orders
  import opened Problem
  import opened Reduction
  import opened Bridge
  import opened Localizer
  import opened Reference
  import opened Verifier
  import opened Probes

  /** A result that fails validation is published as undecided, without its elements. */
  function Published(out: Result, valid: bool): Result {
    if valid then out
    else
      out.(status := Indeterminate, optimalityProven := false, uniquenessProven := false, elements := [],
           reason := LocalizationInvalid)
  }

  ghost function PublishedAnswer(inp: Input, r: Reduced, ref: Result): Result {
    Published(Answer(inp, r), ReportOf(inp, r, ref, Answer(inp, r)).valid)
  }

  /** A published proof is the canonical answer, and with at most 18 candidates nothing is withheld. */
  lemma PublishedHonest(inp: Input, r: Reduced, ref: Result)
    requires ValidInput(inp) && IsReduction(inp, r) && ReferenceResult(inp, r, REFERENCE_MAX_CANDIDATES, ref)
    ensures PublishedAnswer(inp, r, ref).optimalityProven
            ==> CanonicalAnswer(inp, PublishedAnswer(inp, r, ref).elements)
    ensures |r.candidates| <= REFERENCE_MAX_CANDIDATES ==> PublishedAnswer(inp, r, ref) == Answer(inp, r)
  {
    hide ValidInput, IsReduction, ReferenceResult, Answer, ReportOf, CanonicalAnswer, CountHonest;
    LocalizeOptimal(inp, r);
    if |r.candidates| <= REFERENCE_MAX_CANDIDATES {
      VerifierComplete(inp, r, ref);
    }
  }

  /**
   * Above 18 candidates a proven answer is published exactly when it is the first candidates, as many as there are kept
   * sets; otherwise the proof is withheld.
   */
  lemma PublishedLarge(inp: Input, r: Reduced, ref: Result)
    requires Live(inp, r) && r.sets != [] && |r.candidates| > REFERENCE_MAX_CANDIDATES
             && Answer(inp, r).optimalityProven
    ensures PublishedAnswer(inp, r, ref).optimalityProven <==>
            |r.rawSets| <= |r.candidates| && Answer(inp, r).elements == r.candidates[..|r.rawSets|]
  {
    hide Answer, ReportOf, IsReduction, ValidInput;
    VerifierLargeExact(inp, r, ref);
  }

  /** From probes to publication: a published proof is a smallest set of faulty hops that explains every probe. */
  lemma PublishedExplains(n: nat, probes: seq<HopProbe>, inp: Input, r: Reduced, ref: Result, g: set<nat>)
    requires Derived(n, probes, inp) && ValidInput(inp) && IsReduction(inp, r)
    requires PublishedAnswer(inp, r, ref).optimalityProven
    ensures var out := PublishedAnswer(inp, r, ref);
            && Consistent(n, probes, Elems(out.elements))
            && (Consistent(n, probes, g) ==> |Elems(out.elements)| <= |g|)
  {
    hide ValidInput, IsReduction, Answer, ReportOf, Derived, Consistent;
    LocalizationExplains(n, probes, inp, r, g);
  }
}
