/** Identities, generations, fences and decisions shared by the registry, the store and the engine. */
module Domain {
  import opened Bytes

  /** The dependency generations a claim is bound to; zero is nil. */
  datatype Gens = Gens(path: nat, topology: nat, linkState: nat, epoch: nat)

  predicate Complete(g: Gens) {
    g.path != 0 && g.topology != 0 && g.linkState != 0 && g.epoch != 0
  }

  /** A subject of diagnosis; the invalid scope is zero. */
  type Scope = nat

  datatype Cause =
    | NoCause | RestartFencedPriorAuthority | FenceIntentIssued | FenceIntentRevoked | FenceExpired
    | FenceAcknowledged | FenceEffectVerified | FenceEffectUnverified | DependencyGenerationChanged
    | PolicyRefused | UnsupportedInput | BudgetExhausted | DuplicateEvidence | OtherCause(code: nat)

  datatype Class = NoEvidenceClass | UnknownClass | BlackholeClass | OtherClass(code: nat)

  datatype Intent = Intent(
    id: nat, decision: nat, scope: Scope, gens: Gens, boot: nat, incarnation: nat, policy: nat,
    reason: Cause, issuedAt: int, expiresAt: int)

  predicate ValidIntent(i: Intent) {
    && i.id != 0 && i.decision != 0 && i.scope != 0 && Complete(i.gens)
    && i.boot != 0 && i.incarnation != 0 && i.expiresAt > i.issuedAt
  }

  datatype Life = Intended | Acknowledged | EffectReported | RevokedLife | ExpiredLife | FencedByRestart

  predicate OpenLife(l: Life) {
    l.Intended? || l.Acknowledged? || l.EffectReported?
  }

  /** A fence record, in memory and as a durable payload. */
  datatype Fence = Fence(
    intent: Intent, life: Life, verified: bool, ackOwner: nat, effectOwner: nat,
    ackedAt: int, effectedAt: int, terminal: Cause)

  function NewFence(i: Intent): Fence {
    Fence(i, Intended, false, 0, 0, 0, 0, NoCause)
  }

  datatype Rung = NoStage | Observation | Eligibility | Authorization | IntentStage

  datatype Decision = Decision(
    id: nat, restoration: bool, outcome: Outcome, scope: Scope, gens: Gens, classification: Class, cause: Cause,
    boot: nat, incarnation: nat, decidedAt: int, stage: Rung, intent: Option<Intent>)
}
