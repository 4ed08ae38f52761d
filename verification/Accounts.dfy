/** The fence accounts over every run of the engine: which calls leave an attempt unaccounted for. */
module Accounts {
  import opened Domain
  import opened Records
  import opened Store
  import opened LiveStore
  import opened Engine
  import F = Fences

  /**
   * A staged intent becomes a record: it can be minted durably, under identities that are not nil and an id that is
   * new.
   */
  predicate Lands(x: Setup, s: State, c: Call) {
    Mints(x, s, c) && c.mint.id != 0 && c.mint.decision != 0 && !Known(s.reg.records, c.mint.id)
  }

  /** Issuing leaves its attempt unaccounted for: the subject is vacant and yet nothing lands. */
  predicate LeavesOpen(x: Setup, s: State, c: Call) {
    F.Vacant(x.rules, s.reg, c.scope, c.gens) && !Lands(x, s, c)
  }

  predicate Leaves(x: Setup, s: State, op: Op) {
    op.Evaluating? && Admitted(s, op.call) && RungOf(op.call.diagnosis) == Authorization
    && LeavesOpen(x, Begun(x, s, op.call), op.call)
  }

  /** The number of calls of a run that leave an attempt unaccounted for. */
  function Left(x: Setup, s: State, ops: seq<Op>): nat
    decreases |ops|
  {
    if ops == [] then 0 else (if Leaves(x, s, ops[0]) then 1 else 0) + Left(x, Do(x, s, ops[0]), ops[1..])
  }

  /** The registry stays sound, and its gap moves by so much. */
  ghost predicate Moves(x: Setup, s: State, t: State, owed: int) {
    F.Sound(x.rules, t.reg) && F.Gap(t.reg) == F.Gap(s.reg) + owed
  }

  // ---- issuance ----

  lemma IssuanceMoves(x: Setup, s: State, c: Call)
    requires F.Sound(x.rules, s.reg) && c.scope != 0 && Complete(c.gens) && Identified(x)
    ensures Moves(x, s, Issuance(x, s, c).0, if LeavesOpen(x, s, c) then 1 else 0)
  {
    hide F.Sound, Commit, F.FirstOpenFor, F.FirstHolder, FindFence, Room, F.Inserted;
    var a, i := AskOf(x, c), F.IntentFor(x.rules, AskOf(x, c), c.mint);
    StagedMints(x, s, c);
    F.StageKeeps(x.rules, s.reg, a, c.mint);
    var r := F.Stage(x.rules, s.reg, a, c.mint).0;
    F.CommitStagedKeeps(x.rules, r, i);
    F.AttemptsAccounted(x.rules, s.reg, a, c.mint, i);
    F.AttemptsAccounted(x.rules, r, a, c.mint, i);
  }

  // ---- the other steps of a call ----

  lemma {:induction false} EndedKeepsRegistry(x: Setup, s: State, ids: seq<nat>)
    ensures CommitAllEnded(x, s, ids).reg == s.reg && CommitAllEnded(x, s, ids).disk.isOpen == s.disk.isOpen
    decreases |ids|
  {
    hide FindFence, Encode, RecOf, Live;
    if ids != [] {
      EndedKeepsRegistry(x, s, ids[..|ids| - 1]);
    }
  }

  lemma BegunMoves(x: Setup, s: State, c: Call)
    requires F.Sound(x.rules, s.reg)
    ensures Moves(x, s, Begun(x, s, c), 0) && Begun(x, s, c).disk.isOpen == s.disk.isOpen
  {
    hide F.Sound, CommitAllEnded, F.Revalidate, F.Gap;
    var t := s.(counters := s.counters.(evaluations := s.counters.evaluations + 1));
    var (r, ids) := F.Revalidate(s.reg, c.revalidatedAt, c.gens);
    EndedKeepsRegistry(x, t.(reg := r), ids);
    F.RevalidateKeeps(x.rules, s.reg, c.revalidatedAt, c.gens);
    F.RevalidateGap(s.reg, c.revalidatedAt, c.gens);
  }

  lemma RevokeMoves(x: Setup, r: F.Registry, id: nat, reason: Cause, now: int)
    requires F.Sound(x.rules, r)
    ensures var t := F.Revoke(r, id, reason, now).0;
            F.Sound(x.rules, t) && F.Gap(t) == F.Gap(r)
  {
    hide F.Sound, FindFence;
    F.RevokeKeeps(x.rules, r, id, reason, now);
  }

  lemma ConcludedMoves(x: Setup, s: State, d: Decision, endedAt: int)
    requires F.Sound(x.rules, s.reg)
    ensures Moves(x, s, Concluded(x, s, d, endedAt).0, 0)
  {
    hide F.Sound, CommitDecision, F.Revoke, F.Gap;
    DecisionFences(x, s, d);
    if d.intent.Some? {
      RevokeMoves(x, s.reg, d.intent.value.id, FenceIntentRevoked, endedAt);
    }
  }

  lemma EvaluateMoves(x: Setup, s: State, c: Call)
    requires F.Sound(x.rules, s.reg) && Identified(x)
    ensures Moves(x, s, Evaluate(x, s, c).0, if Leaves(x, s, Evaluating(c)) then 1 else 0)
  {
    hide F.Sound, Begun, Issuance, Concluded, RungOf, F.Gap, LeavesOpen;
    if Admitted(s, c) {
      BegunMoves(x, s, c);
      IssuanceMoves(x, Begun(x, s, c), c);
      var (t, intent) := Authorized(x, Begun(x, s, c), c);
      ConcludedMoves(x, t, DecisionOf(x, c, intent), c.endedAt);
    }
  }

  lemma GatedMoves(x: Setup, s: State, c: Call)
    requires F.Sound(x.rules, s.reg)
    ensures Moves(x, s, Gated(x, s, c).0, 0)
  {
    hide F.Sound, Commit, F.Revoke, F.Gap, F.FirstOpenFor;
    var rs := s.reg.records;
    var i := F.FirstOpenFor(rs, c.scope);
    if i < |rs| {
      RevokeMoves(x, s.reg, rs[i].intent.id, FenceIntentRevoked, c.decidedAt);
    }
  }

  lemma RestoreMoves(x: Setup, s: State, c: Call)
    requires F.Sound(x.rules, s.reg)
    ensures Moves(x, s, Restore(x, s, c).0, 0)
  {
    hide F.Sound, Begun, Gated, CommitDecision, F.Gap;
    if Admitted(s, c) {
      BegunMoves(x, s, c);
      GatedMoves(x, Begun(x, s, c), c);
      var (t, rung, cause) := Gated(x, Begun(x, s, c), c);
      DecisionFences(x, t, RestorationOf(x, c, rung, cause));
    }
  }

  lemma AcknowledgeMoves(x: Setup, s: State, id: nat, owner: nat, now: int)
    requires F.Sound(x.rules, s.reg)
    ensures Moves(x, s, AcknowledgeFence(x, s, id, owner, now).0, 0)
  {
    hide F.Sound, Commit, FindFence;
    F.AcknowledgeKeeps(x.rules, s.reg, id, owner, now);
  }

  lemma ReportMoves(x: Setup, s: State, id: nat, owner: nat, verified: bool, now: int)
    requires F.Sound(x.rules, s.reg)
    ensures Moves(x, s, ReportEffect(x, s, id, owner, verified, now).0, 0)
  {
    hide F.Sound, Commit, FindFence;
    F.ReportEffectKeeps(x.rules, s.reg, id, owner, verified, now);
  }

  lemma EnrichMoves(x: Setup, s: State, d: Decision)
    requires F.Sound(x.rules, s.reg)
    ensures Moves(x, s, Enrich(x, s, d), 0)
  {
    hide F.Sound, CommitDecision, F.Gap;
    DecisionFences(x, s.(counters := s.counters.(enrichments := s.counters.enrichments + 1)), d);
  }

  // ---- every run ----

  lemma DoMoves(x: Setup, s: State, op: Op)
    requires F.Sound(x.rules, s.reg) && Identified(x)
    ensures Moves(x, s, Do(x, s, op), if Leaves(x, s, op) then 1 else 0)
  {
    hide F.Sound, Evaluate, Restore, AcknowledgeFence, ReportEffect, Enrich, LeavesOpen, Begun, F.Gap;
    match op
    case Evaluating(c) => EvaluateMoves(x, s, c);
    case Restoring(c) => RestoreMoves(x, s, c);
    case Acknowledging(id, owner, at) => AcknowledgeMoves(x, s, id, owner, at);
    case Reporting(id, owner, verified, at) => ReportMoves(x, s, id, owner, verified, at);
    case Enriching(d) => EnrichMoves(x, s, d);
    case Checkpointing =>
  }

  lemma {:induction false} RunMoves(x: Setup, s: State, ops: seq<Op>)
    requires F.Sound(x.rules, s.reg) && Identified(x)
    ensures Moves(x, s, Run(x, s, ops), Left(x, s, ops))
    decreases |ops|
  {
    hide F.Sound, Do, Leaves, F.Gap;
    if ops != [] {
      DoMoves(x, s, ops[0]);
      RunMoves(x, Do(x, s, ops[0]), ops[1..]);
    }
  }

  /**
   * After any run the accounts fall short by exactly the calls that left an attempt open; they close if there was none.
   */
  lemma EngineClosedExact(x: Setup, d: Disk, ops: seq<Op>)
    requires Identified(x)
    ensures var r := Run(x, Opened(d), ops).reg;
            && r.stats.attempts == r.stats.issued + r.stats.duplicates + r.stats.capacity + Left(x, Opened(d), ops)
            && r.stats.issued == r.stats.open + r.stats.revoked + r.stats.expired + r.stats.fencedByRestart
            && (F.Closed(r) <==> Left(x, Opened(d), ops) == 0)
  {
    hide Run, Left, Opened, F.Sound, F.Empty, F.Closed;
    OpenedParts(d);
    F.EmptySound(x.rules);
    RunMoves(x, Opened(d), ops);
    F.SoundCloses(x.rules, Run(x, Opened(d), ops).reg);
  }
}
