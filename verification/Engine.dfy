/** The engine: diagnosis, two-phase fencing, restoration and the durable record of each, as atomic steps. */
module Engine {
  import opened Bytes
  import opened Domain
  import opened Records
  import opened Store
  import opened LiveStore
  import F = Fences

  /** The configuration, and the identity the opening minted. */
  datatype Setup = Setup(store: Config, rules: F.Rules, boot: nat, incarnation: nat)

  datatype Counters = Counters(
    evaluations: int, enrichments: int, produced: int, committed: int, commitFailures: int, durableFailures: int,
    intentsIssued: int, authorized: int, refused: int, failClosed: int, revocations: int)

  /** The registry, the store and the engine's counters. */
  datatype State = State(reg: F.Registry, disk: Disk, counters: Counters)

  /** What the classifier said. */
  datatype Diagnosis = Diagnosis(outcome: Outcome, classification: Class, cause: Cause, corroborated: bool, total: nat)

  /** What the restoration gate said. */
  datatype Gate = Gate(outcome: Outcome, authorized: bool, cause: Cause)

  /** One call: its arguments, the verdicts it is given, the clock's readings and the identities minted on the way. */
  datatype Call = Call(
    scope: Scope, gens: Gens, diagnosis: Diagnosis, gate: Gate, revalidatedAt: int, decidedAt: int, endedAt: int,
    mint: F.Mint, decisionId: nat)

  // ---- the steps ----

  function Refusal(x: Setup, c: Call, outcome: Outcome): Decision {
    Decision(c.decisionId, false, outcome, c.scope, c.gens, UnknownClass, UnsupportedInput, x.boot, x.incarnation,
             c.decidedAt, NoStage, None)
  }

  /** The durable record of one fence that revalidation ended. */
  function CommitEnded(x: Setup, s: State, id: nat): State {
    var i := FindFence(s.reg.records, id);
    if i == |s.reg.records| then s
    else
      var (d, o) := Commit(x.store, s.disk, FENCE_REVOKE, FencePayload(s.reg.records[i]));
      s.(disk := d, counters := s.counters.(
           durableFailures := s.counters.durableFailures + (if o == Ok then 0 else 1),
           revocations := s.counters.revocations + 1))
  }

  function CommitAllEnded(x: Setup, s: State, ids: seq<nat>): State {
    if ids == [] then s else CommitEnded(x, CommitAllEnded(x, s, ids[..|ids| - 1]), ids[|ids| - 1])
  }

  /** Revalidation: in memory first, then one durable record for each fence it ended. */
  function Revalidation(x: Setup, s: State, now: int, current: Gens): State {
    var (r, ids) := F.Revalidate(s.reg, now, current);
    CommitAllEnded(x, s.(reg := r), ids)
  }

  function Begun(x: Setup, s: State, c: Call): State {
    Revalidation(x, s.(counters := s.counters.(evaluations := s.counters.evaluations + 1)), c.revalidatedAt, c.gens)
  }

  function RungOf(d: Diagnosis): Rung {
    if d.classification.BlackholeClass? then (if d.corroborated then Authorization else Eligibility)
    else if d.total > 0 then Observation else NoStage
  }

  function AskOf(x: Setup, c: Call): F.Ask {
    F.Ask(c.scope, c.gens, x.boot, x.incarnation, c.diagnosis.cause, c.decidedAt)
  }

  /** Two phases: the intent is staged, made durable, and only then recorded in memory. */
  function Issuance(x: Setup, s: State, c: Call): (State, Option<Intent>) {
    var (r, so, staged) := F.Stage(x.rules, s.reg, AskOf(x, c), c.mint);
    var t := s.(reg := r);
    if so == Ok && staged.Some? then
      var (d, co) := Commit(x.store, t.disk, FENCE_INTENT, FencePayload(NewFence(staged.value)));
      var u := t.(disk := d);
      if co != Ok then
        (u.(counters := u.counters.(durableFailures := u.counters.durableFailures + 1,
                                    failClosed := u.counters.failClosed + 1)), None)
      else
        var (q, po) := F.CommitStaged(x.rules, u.reg, staged.value);
        if po != Ok then
          (u.(reg := q, counters := u.counters.(durableFailures := u.counters.durableFailures + 1)), None)
        else
          (u.(reg := q, counters := u.counters.(intentsIssued := u.counters.intentsIssued + 1)), Some(staged.value))
    else if so == Duplicate then
      var i := F.FirstOpenFor(t.reg.records, c.scope);
      (t, if i < |t.reg.records| then Some(t.reg.records[i].intent) else None)
    else (t.(counters := t.counters.(failClosed := t.counters.failClosed + 1)), None)
  }

  /** One decision record attempt. */
  function CommitDecision(x: Setup, s: State, d: Decision): (State, Outcome) {
    var (e, o) := Commit(x.store, s.disk, DECISION_COMMIT, DecisionPayload(d));
    var k := s.counters.(produced := s.counters.produced + 1);
    (s.(disk := e, counters := if o == Ok then k.(committed := k.committed + 1)
                               else k.(commitFailures := k.commitFailures + 1,
                                       durableFailures := k.durableFailures + 1)), o)
  }

  function DecisionOf(x: Setup, c: Call, intent: Option<Intent>): Decision {
    var rung := RungOf(c.diagnosis);
    Decision(c.decisionId, false, c.diagnosis.outcome, c.scope, c.gens, c.diagnosis.classification, c.diagnosis.cause,
             x.boot, x.incarnation, c.decidedAt, if intent.Some? then IntentStage else rung, intent)
  }

  /** The decision recorded; an intent whose decision did not become durable is revoked again. */
  function Concluded(x: Setup, s: State, d: Decision, endedAt: int): (State, Decision) {
    var (t, o) := CommitDecision(x, s, d);
    if o != Ok && d.intent.Some? then
      (t.(reg := F.Revoke(t.reg, d.intent.value.id, FenceIntentRevoked, endedAt).0),
       d.(intent := None, stage := Authorization))
    else (t, d)
  }

  function Authorized(x: Setup, s: State, c: Call): (State, Option<Intent>) {
    if RungOf(c.diagnosis) == Authorization then Issuance(x, s, c) else (s, None)
  }

  function FailClosed(s: State): State {
    s.(counters := s.counters.(failClosed := s.counters.failClosed + 1))
  }

  function Evaluate(x: Setup, s: State, c: Call): (State, Decision) {
    if !s.disk.isOpen then (FailClosed(s), Refusal(x, c, Unavailable))
    else if c.scope == 0 || !Complete(c.gens) then (FailClosed(s), Refusal(x, c, Invalid))
    else
      var (t, intent) := Authorized(x, Begun(x, s, c), c);
      Concluded(x, t, DecisionOf(x, c, intent), c.endedAt)
  }

  function RestorationOf(x: Setup, c: Call, rung: Rung, cause: Cause): Decision {
    Decision(c.decisionId, true, c.gate.outcome, c.scope, c.gens, c.diagnosis.classification, cause,
             x.boot, x.incarnation, c.decidedAt, rung, None)
  }

  /** The revocation of an open fence as its durable record says it. */
  function Withdrawn(f: Fence, now: int): Fence {
    f.(life := RevokedLife, effectedAt := now, terminal := FenceIntentRevoked)
  }

  /** An authorized restoration: the open fence is revoked durably first, and in memory only after that. */
  function Withdrawal(x: Setup, s: State, c: Call): (State, Rung, Cause) {
    var t := s.(counters := s.counters.(authorized := s.counters.authorized + 1));
    var i := F.FirstOpenFor(t.reg.records, c.scope);
    if i == |t.reg.records| then (t, Authorization, c.gate.cause)
    else
      var f := t.reg.records[i];
      var (d, o) := Commit(x.store, t.disk, FENCE_REVOKE, FencePayload(Withdrawn(f, c.decidedAt)));
      var u := t.(disk := d);
      if o == Ok then
        (u.(reg := F.Revoke(u.reg, f.intent.id, FenceIntentRevoked, c.decidedAt).0), Authorization, c.gate.cause)
      else
        (FailClosed(u.(counters := u.counters.(durableFailures := u.counters.durableFailures + 1))), Eligibility,
         PolicyRefused)
  }

  function Gated(x: Setup, s: State, c: Call): (State, Rung, Cause) {
    if c.gate.authorized then Withdrawal(x, s, c)
    else
      (s.(counters := s.counters.(refused := s.counters.refused + 1)),
       if c.diagnosis.total > 0 then Observation else NoStage, c.gate.cause)
  }

  function Restore(x: Setup, s: State, c: Call): (State, Decision) {
    var denied := FailClosed(s).(counters := FailClosed(s).counters.(refused := s.counters.refused + 1));
    if !s.disk.isOpen then (denied, Refusal(x, c, Unavailable))
    else if c.scope == 0 || !Complete(c.gens) then (denied, Refusal(x, c, Invalid))
    else
      var (t, rung, cause) := Gated(x, Begun(x, s, c), c);
      var d := RestorationOf(x, c, rung, cause);
      var (u, o) := CommitDecision(x, t, d);
      if o == Ok then (u, d) else (FailClosed(u), d.(stage := Observation))
  }

  /** The durable record of a fence whose state moved on in memory; a failure is counted, not undone. */
  function Published(x: Setup, s: State, id: nat, kind: nat): State {
    var i := FindFence(s.reg.records, id);
    if i == |s.reg.records| then s
    else
      var (d, o) := Commit(x.store, s.disk, kind, FencePayload(s.reg.records[i]));
      s.(disk := d, counters := s.counters.(durableFailures := s.counters.durableFailures + (if o == Ok then 0 else 1)))
  }

  function AcknowledgeFence(x: Setup, s: State, id: nat, owner: nat, now: int): (State, Outcome) {
    if !s.disk.isOpen then (s, Rejected)
    else
      var (r, o) := F.Acknowledge(s.reg, id, owner, now);
      var t := s.(reg := r);
      if o != Ok then (t, o) else (Published(x, t, id, FENCE_ACK), o)
  }

  function ReportEffect(x: Setup, s: State, id: nat, owner: nat, verified: bool, now: int): (State, Outcome) {
    if !s.disk.isOpen then (s, Rejected)
    else
      var (r, o) := F.ReportEffect(s.reg, id, owner, verified, now);
      var t := s.(reg := r);
      if o != Ok then (t, o) else (Published(x, t, id, FENCE_EFFECT), o)
  }

  /** A localization found outside the lock is recorded as one more decision. */
  function Enrich(x: Setup, s: State, d: Decision): State {
    CommitDecision(x, s.(counters := s.counters.(enrichments := s.counters.enrichments + 1)), d).0
  }

  function Checkpoint(x: Setup, s: State): State {
    s.(disk := Checkpointed(x.store, s.disk))
  }

  // ---- what holds between the steps ----

  /** The durable table has this intent, in an open state. */
  predicate DurablyOpen(fs: seq<Fence>, i: Intent) {
    var k := FindFence(fs, i.id);
    k < |fs| && fs[k].intent == i && OpenLife(fs[k].life)
  }

  /** An open fence in memory: of this incarnation, under the given generations, and open in the durable table. */
  predicate InForce(x: Setup, gens: Gens, fs: seq<Fence>, i: Intent) {
    i.boot == x.boot && i.incarnation == x.incarnation && i.gens == gens && DurablyOpen(fs, i)
  }

  ghost predicate Standing(x: Setup, gens: Gens, rs: seq<Fence>, fs: seq<Fence>) {
    forall i :: 0 <= i < |rs| && OpenLife(rs[i].life) ==> InForce(x, gens, fs, rs[i].intent)
  }

  predicate Accounted(k: Counters) {
    k.produced == k.evaluations + k.enrichments && k.produced == k.committed + k.commitFailures
  }

  /** The registry is sound and every open fence in force. */
  ghost predicate InOrder(x: Setup, gens: Gens, s: State) {
    F.Sound(x.rules, s.reg) && Standing(x, gens, s.reg.records, s.disk.state.fences)
  }

  /** The engine's invariant; gens are those of the last evaluation or restoration that reached revalidation. */
  ghost predicate Good(x: Setup, gens: Gens, s: State) {
    InOrder(x, gens, s) && Accounted(s.counters)
  }

  predicate NoOpenFor(rs: seq<Fence>, scope: Scope) {
    forall i :: 0 <= i < |rs| && OpenLife(rs[i].life) ==> rs[i].intent.scope != scope
  }

  /** An opening never mints a nil identity. */
  predicate Identified(x: Setup) {
    x.boot != 0 && x.incarnation != 0
  }

  /** The store would append a record of this payload. */
  predicate Takes(c: Config, d: Disk, p: Payload) {
    Encodable(c, p) && d.isOpen && |d.journal| < c.bounds.bytes
  }

  /** The store would append a record of this fence and have room for it. */
  predicate TakesFence(c: Config, d: Disk, f: Fence) {
    Takes(c, d, FencePayload(f)) && Room(c, d.state.fences, f)
  }

  /** The call reaches revalidation. */
  predicate Admitted(s: State, c: Call) {
    s.disk.isOpen && c.scope != 0 && Complete(c.gens)
  }

  /**
   * Issuing mints an intent and makes it durable: the subject is vacant, the lifetime in range, the store can take it.
   */
  predicate Mints(x: Setup, s: State, c: Call) {
    && F.Vacant(x.rules, s.reg, c.scope, c.gens) && F.Lasts(x.rules, c.decidedAt)
    && TakesFence(x.store, s.disk, NewFence(F.IntentFor(x.rules, AskOf(x, c), c.mint)))
  }

  predicate Unused(rs: seq<Fence>, id: nat) {
    forall k :: 0 <= k < |rs| && OpenLife(rs[k].life) ==> rs[k].intent.id != id
  }

  /** If an intent is minted its id is not that of a fence open in memory. */
  predicate FreshMint(x: Setup, s: State, c: Call) {
    Mints(x, s, c) ==> Unused(s.reg.records, c.mint.id)
  }

  /** The same of an evaluation, once it has revalidated. */
  predicate FreshCall(x: Setup, s: State, c: Call) {
    Admitted(s, c) && RungOf(c.diagnosis) == Authorization ==> FreshMint(x, Begun(x, s, c), c)
  }

  // ---- the durable table under one more record ----

  lemma LiveFence(c: Config, s: Durable, e: Entry)
    requires e.what.FencePayload?
    ensures var (t, o) := Live(c, s, e);
            t.fences == if o == Ok then PutFence(s.fences, e.what.fence) else s.fences
  {
    hide FindFence, FenceLine, Pushed;
    var f := e.what.fence;
    var total := s.fencesTotal + (if e.kind == FENCE_INTENT && !Known(s.fences, f.intent.id) then 1 else 0);
    PushedFrame(c, s.(fences := PutFence(s.fences, f), fencesTotal := total),
                LineageEntry(FenceLine(e.kind, e.number, f), false), []);
  }

  lemma LiveDecision(c: Config, s: Durable, e: Entry)
    requires e.what.DecisionPayload?
    ensures Live(c, s, e).0.fences == s.fences
  {
    hide DecisionLine, Pushed;
    PushedFrame(c, s.(decisions := s.decisions + 1),
                LineageEntry(DecisionLine(e.kind, e.number, e.what.decision), false), []);
  }

  lemma CommitFence(c: Config, d: Disk, kind: nat, f: Fence)
    ensures var (e, o) := Commit(c, d, kind, FencePayload(f));
            e.state.fences == (if o == Ok then PutFence(d.state.fences, f) else d.state.fences) && e.isOpen == d.isOpen
  {
    hide PutFence, RecOf, Live, Encode;
    LiveFence(c, d.state, Entry(kind, d.lastSeq + 1, FencePayload(f)));
  }

  lemma CommitKeepsFences(c: Config, d: Disk, what: Decision)
    ensures var e := Commit(c, d, DECISION_COMMIT, DecisionPayload(what)).0;
            e.state.fences == d.state.fences && e.isOpen == d.isOpen
  {
    hide RecOf, Live, Encode;
    LiveDecision(c, d.state, Entry(DECISION_COMMIT, d.lastSeq + 1, DecisionPayload(what)));
  }

  lemma PutFinds(fs: seq<Fence>, f: Fence, id: nat)
    ensures var t := PutFence(fs, f);
            var k := FindFence(t, id);
            if id == f.intent.id then k < |t| && t[k] == f
            else FindFence(fs, id) == |fs| <==> k == |t|
    ensures id != f.intent.id && FindFence(fs, id) < |fs| ==>
              FindFence(PutFence(fs, f), id) < |PutFence(fs, f)|
              && PutFence(fs, f)[FindFence(PutFence(fs, f), id)] == fs[FindFence(fs, id)]
  {
    var t, n, k := PutFence(fs, f), FindFence(fs, id), FindFence(PutFence(fs, f), id);
    var m := FindFence(fs, f.intent.id);
    if id != f.intent.id && n < |fs| {
      assert t[n] == fs[n];
      assert k <= n;
      assert k == n;
    }
    if id == f.intent.id {
      assert t[m] == f;
    }
  }

  lemma PutOther(fs: seq<Fence>, f: Fence, i: Intent)
    requires DurablyOpen(fs, i) && f.intent.id != i.id
    ensures DurablyOpen(PutFence(fs, f), i)
  {
    hide PutFence, FindFence;
    PutFinds(fs, f, i.id);
  }

  lemma PutSame(fs: seq<Fence>, f: Fence)
    requires OpenLife(f.life)
    ensures DurablyOpen(PutFence(fs, f), f.intent)
  {
    hide PutFence, FindFence;
    PutFinds(fs, f, f.intent.id);
  }

  /** Writing a record of a fence that is not open in memory, or of one that is and stays so, disturbs no other. */
  lemma StandingPut(x: Setup, gens: Gens, rs: seq<Fence>, fs: seq<Fence>, f: Fence)
    requires Standing(x, gens, rs, fs)
    requires forall i :: 0 <= i < |rs| && OpenLife(rs[i].life) && rs[i].intent.id == f.intent.id ==>
               rs[i].intent == f.intent && OpenLife(f.life)
    ensures Standing(x, gens, rs, PutFence(fs, f))
  {
    hide PutFence, DurablyOpen;
    forall i | 0 <= i < |rs| && OpenLife(rs[i].life)
      ensures InForce(x, gens, PutFence(fs, f), rs[i].intent)
    {
      if rs[i].intent.id == f.intent.id {
        PutSame(fs, f);
      } else {
        PutOther(fs, f, rs[i].intent);
      }
    }
  }

  // ---- the operations keep the invariant ----

  /** The named records are no longer open in memory. */
  ghost predicate EndedAll(rs: seq<Fence>, ids: seq<nat>) {
    forall id :: id in ids && FindFence(rs, id) < |rs| ==> !OpenLife(rs[FindFence(rs, id)].life)
  }

  lemma OrderedFind(rs: seq<Fence>, i: nat)
    requires F.Ordered(rs) && i < |rs|
    ensures FindFence(rs, rs[i].intent.id) == i
  {}

  lemma {:induction false} CommitAllEndedKeeps(x: Setup, gens: Gens, s: State, ids: seq<nat>)
    requires F.Ordered(s.reg.records) && Standing(x, gens, s.reg.records, s.disk.state.fences)
             && EndedAll(s.reg.records, ids)
    ensures var t := CommitAllEnded(x, s, ids);
            && t.reg == s.reg && Standing(x, gens, s.reg.records, t.disk.state.fences) && t.disk.isOpen == s.disk.isOpen
            && SameAccount(s.counters, t.counters)
    decreases |ids|
  {
    hide F.Ordered, Standing, Commit, FindFence;
    if ids != [] {
      var front := ids[..|ids| - 1];
      assert EndedAll(s.reg.records, front);
      CommitAllEndedKeeps(x, gens, s, front);
      assert ids[|ids| - 1] in ids;
      CommitEndedKeeps(x, gens, CommitAllEnded(x, s, front), ids[|ids| - 1]);
    }
  }

  predicate SameAccount(k: Counters, l: Counters) {
    && k.evaluations == l.evaluations && k.enrichments == l.enrichments && k.produced == l.produced
    && k.committed == l.committed && k.commitFailures == l.commitFailures
  }

  lemma CommitEndedKeeps(x: Setup, gens: Gens, s: State, id: nat)
    requires F.Ordered(s.reg.records) && Standing(x, gens, s.reg.records, s.disk.state.fences)
             && EndedAll(s.reg.records, [id])
    ensures var t := CommitEnded(x, s, id);
            && t.reg == s.reg && Standing(x, gens, s.reg.records, t.disk.state.fences) && t.disk.isOpen == s.disk.isOpen
            && SameAccount(s.counters, t.counters)
  {
    hide Commit, InForce;
    var rs := s.reg.records;
    var i := FindFence(rs, id);
    if i < |rs| {
      assert id in [id];
      CommitFence(x.store, s.disk, FENCE_REVOKE, rs[i]);
      PublishedStanding(x, gens, rs, s.disk.state.fences, i);
    }
  }

  /** Writing the record found in slot i, as it is in memory, keeps every open fence in force. */
  lemma PublishedStanding(x: Setup, gens: Gens, rs: seq<Fence>, fs: seq<Fence>, i: nat)
    requires F.Ordered(rs) && Standing(x, gens, rs, fs) && i < |rs|
    ensures Standing(x, gens, rs, PutFence(fs, rs[i]))
  {
    hide Standing, PutFence;
    StandingPut(x, gens, rs, fs, rs[i]);
  }

  lemma {:induction false} EndedIdsClosed(rs: seq<Fence>, now: int, gens: Gens, id: nat) returns (i: nat)
    requires id in F.EndedIds(rs, now, gens)
    ensures i < |rs| && rs[i].intent.id == id && F.Ends(rs[i], now, gens)
  {
    var n := |rs| - 1;
    if id in F.EndedIds(rs[..n], now, gens) {
      i := EndedIdsClosed(rs[..n], now, gens, id);
    } else {
      i := n;
    }
  }

  /** The ids revalidation reports are those of records it closed. */
  lemma ReportedEnded(r: F.Registry, now: int, gens: Gens)
    requires F.Ordered(r.records)
    ensures EndedAll(F.Revalidate(r, now, gens).0.records, F.Revalidate(r, now, gens).1)
  {
    hide F.Revalidate, FindFence, F.EndedIds;
    F.RevalidateEach(r, now, gens);
    F.RevalidateIds(r, now, gens);
    var (t, ids) := F.Revalidate(r, now, gens);
    assert F.Ordered(t.records);
    forall id | id in ids && FindFence(t.records, id) < |t.records|
      ensures !OpenLife(t.records[FindFence(t.records, id)].life)
    {
      var i := EndedIdsClosed(r.records, now, gens, id);
      OrderedFind(t.records, i);
    }
  }

  lemma RevalidatedStanding(x: Setup, was: Gens, r: F.Registry, fs: seq<Fence>, now: int, gens: Gens)
    requires Standing(x, was, r.records, fs)
    ensures Standing(x, gens, F.Revalidate(r, now, gens).0.records, fs)
  {
    hide F.Revalidate, DurablyOpen;
    F.RevalidateEach(r, now, gens);
  }

  /** Revalidation brings every open fence under the current generations. */
  lemma RevalidationKeeps(x: Setup, was: Gens, s: State, now: int, gens: Gens)
    requires Good(x, was, s)
    ensures Good(x, gens, Revalidation(x, s, now, gens)) && Revalidation(x, s, now, gens).disk.isOpen == s.disk.isOpen
    ensures SameAccount(s.counters, Revalidation(x, s, now, gens).counters)
    ensures Revalidation(x, s, now, gens).reg == F.Revalidate(s.reg, now, gens).0
  {
    hide F.Revalidate, F.Ordered, F.OneHolder, F.Balanced, Standing, CommitAllEnded, EndedAll;
    var (r, ids) := F.Revalidate(s.reg, now, gens);
    F.RevalidateKeeps(x.rules, s.reg, now, gens);
    ReportedEnded(s.reg, now, gens);
    RevalidatedStanding(x, was, s.reg, s.disk.state.fences, now, gens);
    CommitAllEndedKeeps(x, gens, s.(reg := r), ids);
  }

  // ---- issuance ----

  /** An issued or found intent is the call's own, open in memory and in the durable table. */
  ghost predicate IntentOf(x: Setup, s: State, c: Call, i: Intent) {
    && i.scope == c.scope && InForce(x, c.gens, s.disk.state.fences, i)
    && exists k :: 0 <= k < |s.reg.records| && s.reg.records[k].intent == i && OpenLife(s.reg.records[k].life)
  }

  /** No open fence in memory that was not there before. */
  ghost predicate NoneNew(was: seq<Fence>, rs: seq<Fence>) {
    forall i :: 0 <= i < |rs| && OpenLife(rs[i].life) ==> rs[i] in was
  }

  /** No open fence in memory that was not there before, but the one with this intent. */
  ghost predicate OnlyNew(was: seq<Fence>, rs: seq<Fence>, intent: Option<Intent>) {
    forall i :: 0 <= i < |rs| && OpenLife(rs[i].life) ==> rs[i] in was || intent == Some(rs[i].intent)
  }

  lemma NoHolderNoOpen(x: Setup, gens: Gens, rs: seq<Fence>, fs: seq<Fence>, scope: Scope)
    requires Standing(x, gens, rs, fs) && F.FirstHolder(rs, scope, gens) == |rs|
    ensures NoOpenFor(rs, scope)
  {
    hide DurablyOpen;
    forall i | 0 <= i < |rs| && OpenLife(rs[i].life)
      ensures rs[i].intent.scope != scope
    {
      assert !F.Holder(rs[i], scope, gens);
    }
  }

  /** A fresh record goes in: all the open ones are in force, the new one among them. */
  lemma StandingInserted(x: Setup, gens: Gens, rs: seq<Fence>, fs: seq<Fence>, f: Fence)
    requires Standing(x, gens, rs, fs) && InForce(x, gens, fs, f.intent)
    ensures Standing(x, gens, F.Inserted(rs, f), fs)
  {
    hide InForce, F.Inserted;
    var t := F.Inserted(rs, f);
    F.InsertedAt(rs, f, 0);
    forall i | 0 <= i < |t| && OpenLife(t[i].life)
      ensures InForce(x, gens, fs, t[i].intent)
    {
      F.InsertedAt(rs, f, i);
    }
  }

  lemma InsertedOnlyNew(rs: seq<Fence>, f: Fence)
    ensures OnlyNew(rs, F.Inserted(rs, f), Some(f.intent))
  {
    hide F.Inserted;
    F.InsertedAt(rs, f, 0);
    forall i | 0 <= i < |F.Inserted(rs, f)|
      ensures F.Inserted(rs, f)[i] in rs || F.Inserted(rs, f)[i] == f
    {
      F.InsertedAt(rs, f, i);
    }
  }

  lemma InsertedHas(rs: seq<Fence>, f: Fence) returns (k: nat)
    ensures k < |F.Inserted(rs, f)| && F.Inserted(rs, f)[k] == f
  {
    k := F.Slot(rs, f.intent.id);
    F.InsertedAt(rs, f, k);
  }

  /** Once the fresh intent is durable, recording it in memory keeps the invariant and puts it in force. */
  lemma RecordedStanding(x: Setup, s: State, c: Call, i: Intent, fs: seq<Fence>)
    requires InOrder(x, c.gens, s) && i == F.IntentFor(x.rules, AskOf(x, c), c.mint)
    requires Unused(s.reg.records, i.id) && fs == PutFence(s.disk.state.fences, NewFence(i))
    ensures Standing(x, c.gens, s.reg.records, fs)
    ensures var (q, po) := F.CommitStaged(x.rules, s.reg, i);
            && F.Sound(x.rules, q) && Standing(x, c.gens, q.records, fs)
            && (po == Ok ==> exists k :: 0 <= k < |q.records| && q.records[k].intent == i
                                         && OpenLife(q.records[k].life))
            && (po != Ok ==> q == s.reg) && OnlyNew(s.reg.records, q.records, Some(i))
    ensures InForce(x, c.gens, fs, i)
  {
    hide F.Sound, DurablyOpen, PutFence, FindFence, F.FirstHolder, F.Inserted, Standing;
    F.CommitStagedKeeps(x.rules, s.reg, i);
    StandingPut(x, c.gens, s.reg.records, s.disk.state.fences, NewFence(i));
    PutSame(s.disk.state.fences, NewFence(i));
    if F.CommitStaged(x.rules, s.reg, i).1 == Ok {
      StandingInserted(x, c.gens, s.reg.records, fs, NewFence(i));
      InsertedOnlyNew(s.reg.records, NewFence(i));
      var k := InsertedHas(s.reg.records, NewFence(i));
      assert F.CommitStaged(x.rules, s.reg, i).0.records[k] == NewFence(i);
    }
  }

  lemma FoundIntent(x: Setup, s: State, c: Call)
    requires InOrder(x, c.gens, s) && F.FirstOpenFor(s.reg.records, c.scope) < |s.reg.records|
    ensures IntentOf(x, s, c, s.reg.records[F.FirstOpenFor(s.reg.records, c.scope)].intent)
  {
    hide DurablyOpen;
    var k := F.FirstOpenFor(s.reg.records, c.scope);
    assert InForce(x, c.gens, s.disk.state.fences, s.reg.records[k].intent);
  }

  lemma HolderOpenFor(rs: seq<Fence>, scope: Scope, gens: Gens)
    requires F.FirstHolder(rs, scope, gens) < |rs|
    ensures F.FirstOpenFor(rs, scope) < |rs|
  {
    var h := F.FirstHolder(rs, scope, gens);
    assert OpenLife(rs[h].life) && rs[h].intent.scope == scope;
  }

  /** Issuance keeps the invariant; it yields an intent in force for this call, or leaves none open for the subject. */
  lemma IssuanceKeeps(x: Setup, s: State, c: Call)
    requires InOrder(x, c.gens, s) && FreshMint(x, s, c) && s.disk.isOpen && c.scope != 0 && Complete(c.gens)
             && Identified(x)
    ensures var (t, i) := Issuance(x, s, c);
            && InOrder(x, c.gens, t) && t.disk.isOpen && SameAccount(s.counters, t.counters)
            && (i.Some? ==> IntentOf(x, t, c, i.value))
            && (i.None? ==> NoOpenFor(t.reg.records, c.scope))
            && OnlyNew(s.reg.records, t.reg.records, i)
  {
    hide F.Ordered, F.OneHolder, F.OpenCount, Standing, Commit, F.FirstHolder, F.CommitStaged, InForce, F.FirstOpenFor;
    hide PutFence, NoOpenFor, FindFence, Mints, Unused;
    var (r, so, staged) := F.Stage(x.rules, s.reg, AskOf(x, c), c.mint);
    F.StageKeeps(x.rules, s.reg, AskOf(x, c), c.mint);
    var t := s.(reg := r);
    assert InOrder(x, c.gens, t);
    if so == Duplicate {
      HolderOpenFor(s.reg.records, c.scope, c.gens);
      FoundIntent(x, t, c);
    } else {
      StagedNoOpen(x, s, c);
      if so == Ok {
        StagedMints(x, s, c);
        CommitFence(x.store, t.disk, FENCE_INTENT, NewFence(staged.value));
        if Mints(x, s, c) {
          RecordedStanding(x, t, c, staged.value, PutFence(t.disk.state.fences, NewFence(staged.value)));
        }
      }
    }
  }

  /** What staging and the store's commit check, taken together. */
  lemma StagedMints(x: Setup, s: State, c: Call)
    requires c.scope != 0 && Complete(c.gens) && Identified(x)
    ensures var (r, so, staged) := F.Stage(x.rules, s.reg, AskOf(x, c), c.mint);
            && (so == Ok ==> staged == Some(F.IntentFor(x.rules, AskOf(x, c), c.mint)))
            && (Mints(x, s, c) <==>
                so == Ok && Commit(x.store, s.disk, FENCE_INTENT, FencePayload(NewFence(staged.value))).1 == Ok)
  {
    hide F.FirstHolder, FindFence, Encode, RecOf, Pushed, Encodable;
  }

  lemma StagedNoOpen(x: Setup, s: State, c: Call)
    requires InOrder(x, c.gens, s) && Identified(x)
    requires F.Stage(x.rules, s.reg, AskOf(x, c), c.mint).1 != Duplicate && c.scope != 0 && Complete(c.gens)
    ensures NoOpenFor(s.reg.records, c.scope)
  {
    hide Standing, F.Sound, F.FirstHolder, NoOpenFor;
    NoHolderNoOpen(x, c.gens, s.reg.records, s.disk.state.fences, c.scope);
  }

  // ---- evaluation ----

  /** Revoking a fence in memory leaves the others in force. */
  lemma RevokedStanding(x: Setup, gens: Gens, r: F.Registry, fs: seq<Fence>, id: nat, reason: Cause, now: int)
    requires F.Sound(x.rules, r) && Standing(x, gens, r.records, fs)
    ensures var t := F.Revoke(r, id, reason, now).0;
            && F.Sound(x.rules, t) && Standing(x, gens, t.records, fs) && NoneNew(r.records, t.records)
            && FindFence(t.records, id) == FindFence(r.records, id) && |t.records| == |r.records|
            && (FindFence(r.records, id) < |r.records| ==> !OpenLife(t.records[FindFence(r.records, id)].life))
            && (forall k :: 0 <= k < |r.records| && k != FindFence(r.records, id) ==> t.records[k] == r.records[k])
  {
    hide F.Sound, InForce;
    F.RevokeKeeps(x.rules, r, id, reason, now);
    var t, k := F.Revoke(r, id, reason, now).0, FindFence(r.records, id);
    if k < |r.records| {
      FindUpdated(r.records, k, t.records[k]);
    }
  }

  lemma FindUpdated(rs: seq<Fence>, k: nat, f: Fence)
    requires k < |rs| && FindFence(rs, rs[k].intent.id) == k && f.intent == rs[k].intent
    ensures FindFence(rs[k := f], f.intent.id) == k
  {}

  /** With the subject's one open fence revoked, none is open for it. */
  lemma RevokedLast(x: Setup, gens: Gens, r: F.Registry, fs: seq<Fence>, i: Intent, reason: Cause, now: int)
    requires F.Sound(x.rules, r) && Standing(x, gens, r.records, fs) && i.gens == gens
    requires exists k :: 0 <= k < |r.records| && r.records[k].intent == i && OpenLife(r.records[k].life)
    ensures NoOpenFor(F.Revoke(r, i.id, reason, now).0.records, i.scope)
  {
    hide F.Revoke, F.Balanced, DurablyOpen;
    var k :| 0 <= k < |r.records| && r.records[k].intent == i && OpenLife(r.records[k].life);
    OrderedFind(r.records, k);
    RevokedStanding(x, gens, r, fs, i.id, reason, now);
    var t := F.Revoke(r, i.id, reason, now).0;
    forall j | 0 <= j < |t.records| && OpenLife(t.records[j].life)
      ensures t.records[j].intent.scope != i.scope
    {
      assert t.records[j] == r.records[j];
      assert InForce(x, gens, fs, r.records[j].intent);
      if j < k {
        assert r.records[j].intent.scope != r.records[k].intent.scope;
      } else {
        assert r.records[k].intent.scope != r.records[j].intent.scope;
      }
    }
  }

  lemma DecisionKeeps(x: Setup, gens: Gens, s: State, d: Decision)
    requires F.Sound(x.rules, s.reg) && Standing(x, gens, s.reg.records, s.disk.state.fences)
    ensures var (t, o) := CommitDecision(x, s, d);
            && t.reg == s.reg && t.disk.state.fences == s.disk.state.fences && t.disk.isOpen == s.disk.isOpen
            && t.counters.produced == s.counters.produced + 1 && t.counters.evaluations == s.counters.evaluations
            && t.counters.enrichments == s.counters.enrichments
            && t.counters.committed + t.counters.commitFailures == s.counters.committed + s.counters.commitFailures + 1
            && (o == Ok <==> t.counters.committed == s.counters.committed + 1)
  {
    hide Commit, Standing;
    CommitKeepsFences(x.store, s.disk, d);
  }

  /** The counters of a call that has begun: one evaluation ahead of its decision. */
  predicate Owing(k: Counters) {
    k.produced + 1 == k.evaluations + k.enrichments && k.produced == k.committed + k.commitFailures
  }

  ghost predicate GoodBut(x: Setup, gens: Gens, s: State) {
    InOrder(x, gens, s) && Owing(s.counters)
  }

  lemma BegunKeeps(x: Setup, was: Gens, s: State, c: Call)
    requires Good(x, was, s)
    ensures var t := Begun(x, s, c);
            && GoodBut(x, c.gens, t) && t.disk.isOpen == s.disk.isOpen
            && t.reg == F.Revalidate(s.reg, c.revalidatedAt, c.gens).0
            && t.counters.committed == s.counters.committed
  {
    hide F.Sound, Standing, Revalidation, F.Revalidate;
    RevalidationKeeps(x, was, s, c.revalidatedAt, c.gens);
    CountedBefore(x, s, c);
  }

  /** Revalidation does not look at the evaluation counter. */
  lemma CountedBefore(x: Setup, s: State, c: Call)
    ensures var t := s.(counters := s.counters.(evaluations := s.counters.evaluations + 1));
            var a, b := Revalidation(x, s, c.revalidatedAt, c.gens), Revalidation(x, t, c.revalidatedAt, c.gens);
            b == a.(counters := a.counters.(evaluations := a.counters.evaluations + 1))
  {
    hide CommitAllEnded, F.Revalidate;
    var (r, ids) := F.Revalidate(s.reg, c.revalidatedAt, c.gens);
    CountedBeforeAll(x, s.(reg := r), ids);
  }

  lemma {:induction false} CountedBeforeAll(x: Setup, s: State, ids: seq<nat>)
    ensures var t := s.(counters := s.counters.(evaluations := s.counters.evaluations + 1));
            var a, b := CommitAllEnded(x, s, ids), CommitAllEnded(x, t, ids);
            b == a.(counters := a.counters.(evaluations := a.counters.evaluations + 1))
    decreases |ids|
  {
    hide Commit, FindFence;
    if ids != [] {
      CountedBeforeAll(x, s, ids[..|ids| - 1]);
    }
  }

  /** The call's own fence after its decision: recorded and in force, or gone with the record that failed. */
  ghost predicate Settles(x: Setup, before: State, c: Call, t: State, d: Decision) {
    && d.scope == c.scope && d.gens == c.gens && d.boot == x.boot && d.incarnation == x.incarnation
    && (d.intent.Some? ==> IntentOf(x, t, c, d.intent.value) && d.stage == IntentStage
                           && t.counters.committed == before.counters.committed + 1)
    && (d.intent.None? ==> d.stage != IntentStage)
    && (RungOf(c.diagnosis) == Authorization && d.intent.None? ==> NoOpenFor(t.reg.records, c.scope))
    && (t.counters.committed == before.counters.committed ==>
          d.intent.None? && NoneNew(before.reg.records, t.reg.records))
  }

  lemma RungNotIntent(d: Diagnosis)
    ensures RungOf(d) != IntentStage
  {}

  lemma NoneNewSelf(rs: seq<Fence>)
    ensures NoneNew(rs, rs)
  {}

  /** A decision recorded, or the failure of its record paid for with the intent. */
  lemma ConcludedKeeps(x: Setup, s: State, before: State, c: Call, intent: Option<Intent>)
    requires GoodBut(x, c.gens, s) && s.counters.committed == before.counters.committed
    requires intent.Some? ==> IntentOf(x, s, c, intent.value)
    requires OnlyNew(before.reg.records, s.reg.records, intent)
    requires RungOf(c.diagnosis) == Authorization && intent.None? ==> NoOpenFor(s.reg.records, c.scope)
    requires intent.Some? ==> RungOf(c.diagnosis) == Authorization
    ensures var (t, d) := Concluded(x, s, DecisionOf(x, c, intent), c.endedAt);
            Good(x, c.gens, t) && t.disk.isOpen == s.disk.isOpen && Settles(x, before, c, t, d)
  {
    hide F.Sound, Standing, CommitDecision, F.Revoke, NoOpenFor, InForce, OnlyNew, NoneNew, RungOf;
    var d0 := DecisionOf(x, c, intent);
    DecisionKeeps(x, c.gens, s, d0);
    RungNotIntent(c.diagnosis);
    var (t, o) := CommitDecision(x, s, d0);
    if o != Ok {
      if intent.Some? {
        var i := intent.value;
        InForceGens(x, c.gens, s.disk.state.fences, i);
        RevokedStanding(x, c.gens, t.reg, t.disk.state.fences, i.id, FenceIntentRevoked, c.endedAt);
        RevokedLast(x, c.gens, t.reg, t.disk.state.fences, i, FenceIntentRevoked, c.endedAt);
        RevokedNoneNew(before.reg.records, s.reg.records,
                       F.Revoke(t.reg, i.id, FenceIntentRevoked, c.endedAt).0.records, i);
      } else {
        NoneButNone(before.reg.records, s.reg.records);
      }
    }
  }

  lemma InForceGens(x: Setup, gens: Gens, fs: seq<Fence>, i: Intent)
    requires InForce(x, gens, fs, i)
    ensures i.gens == gens
  {}

  lemma NoneButNone(was: seq<Fence>, rs: seq<Fence>)
    requires OnlyNew(was, rs, None)
    ensures NoneNew(was, rs)
  {}

  lemma RevokedNoneNew(was: seq<Fence>, rs: seq<Fence>, ts: seq<Fence>, i: Intent)
    requires OnlyNew(was, rs, Some(i)) && NoneNew(rs, ts) && NoOpenFor(ts, i.scope)
    ensures NoneNew(was, ts)
  {
    forall k | 0 <= k < |ts| && OpenLife(ts[k].life)
      ensures ts[k] in was
    {
      assert ts[k] in rs;
      var j :| 0 <= j < |rs| && rs[j] == ts[k];
    }
  }

  lemma AuthorizedKeeps(x: Setup, s: State, c: Call)
    requires InOrder(x, c.gens, s) && (RungOf(c.diagnosis) == Authorization ==> FreshMint(x, s, c))
    requires s.disk.isOpen && c.scope != 0 && Complete(c.gens) && Identified(x)
    ensures var (t, i) := Authorized(x, s, c);
            && InOrder(x, c.gens, t) && t.disk.isOpen && SameAccount(s.counters, t.counters)
            && (i.Some? ==> IntentOf(x, t, c, i.value) && RungOf(c.diagnosis) == Authorization)
            && (i.None? && RungOf(c.diagnosis) == Authorization ==> NoOpenFor(t.reg.records, c.scope))
            && OnlyNew(s.reg.records, t.reg.records, i)
  {
    hide F.Sound, Standing, Issuance, NoOpenFor, IntentOf, RungOf, FreshMint;
    if RungOf(c.diagnosis) == Authorization {
      IssuanceKeeps(x, s, c);
    }
  }

  /**
   * An evaluation keeps the invariant, under its own generations. The intent it returns, minted or found, is of its
   * subject, generations, boot and incarnation, and open in memory and in the durable table. If the decision did not
   * become durable it carries no intent, no fence has become open by it, and none is open for an authorized subject.
   */
  lemma EvaluateKeeps(x: Setup, was: Gens, s: State, c: Call)
    requires Good(x, was, s) && Identified(x) && FreshCall(x, s, c)
    ensures var (t, d) := Evaluate(x, s, c);
            if Admitted(s, c) then Good(x, c.gens, t) && Settles(x, Begun(x, s, c), c, t, d)
            else Good(x, was, t) && d.intent.None? && t.reg == s.reg && t.disk == s.disk
  {
    hide F.Sound, Standing, Begun, Authorized, Concluded, Settles, IntentOf, NoOpenFor, OnlyNew, FreshMint, RungOf;
    if Admitted(s, c) {
      BegunKeeps(x, was, s, c);
      var b := Begun(x, s, c);
      AuthorizedKeeps(x, b, c);
      var (t, i) := Authorized(x, b, c);
      ConcludedKeeps(x, t, b, c, i);
    }
  }

  /** A minted id that an open fence has: the durable record of that fence is overwritten. */
  lemma CollisionBreaks(x: Setup, s: State, c: Call)
    requires InOrder(x, c.gens, s) && s.disk.isOpen && c.scope != 0 && Complete(c.gens) && Identified(x)
    requires !FreshMint(x, s, c)
    ensures var (t, i) := Issuance(x, s, c);
            i.None? && !Standing(x, c.gens, t.reg.records, t.disk.state.fences)
  {
    hide F.Sound, Standing, Commit, F.FirstHolder, PutFence, FindFence, F.Inserted, DurablyOpen, Room;
    var i, rs, fs := F.IntentFor(x.rules, AskOf(x, c), c.mint), s.reg.records, s.disk.state.fences;
    var k :| 0 <= k < |rs| && OpenLife(rs[k].life) && rs[k].intent.id == i.id;
    StagedMints(x, s, c);
    CommitFence(x.store, s.disk, FENCE_INTENT, NewFence(i));
    IdKnown(rs, k);
    InForceAt(x, c.gens, rs, fs, k);
    assert !F.Holder(rs[k], c.scope, c.gens);
    Overwritten(x, c.gens, rs, fs, k, NewFence(i));
  }

  lemma IdKnown(rs: seq<Fence>, k: nat)
    requires k < |rs|
    ensures Known(rs, rs[k].intent.id)
  {}

  lemma Overwritten(x: Setup, gens: Gens, rs: seq<Fence>, fs: seq<Fence>, k: nat, f: Fence)
    requires k < |rs| && OpenLife(rs[k].life) && rs[k].intent.id == f.intent.id && rs[k].intent != f.intent
    ensures !Standing(x, gens, rs, PutFence(fs, f))
  {
    hide FindFence, PutFence;
    PutFinds(fs, f, f.intent.id);
    assert !InForce(x, gens, PutFence(fs, f), rs[k].intent);
  }

  /** An evaluation keeps the invariant exactly when it mints no id that a fence open in memory has. */
  lemma EvaluateExact(x: Setup, was: Gens, s: State, c: Call)
    requires Good(x, was, s) && Identified(x)
    ensures Good(x, Under(s, was, Evaluating(c)), Evaluate(x, s, c).0) <==> FreshCall(x, s, c)
  {
    hide F.Sound, Standing, Begun, Issuance, CommitDecision, Settles, IntentOf, NoOpenFor, OnlyNew, FreshMint, RungOf;
    if FreshCall(x, s, c) {
      EvaluateKeeps(x, was, s, c);
    } else {
      BegunKeeps(x, was, s, c);
      CollisionBreaks(x, Begun(x, s, c), c);
      var (t, i) := Issuance(x, Begun(x, s, c), c);
      DecisionFences(x, t, DecisionOf(x, c, None));
    }
  }

  lemma DecisionFences(x: Setup, s: State, d: Decision)
    ensures var t := CommitDecision(x, s, d).0;
            t.reg == s.reg && t.disk.state.fences == s.disk.state.fences
  {
    hide Commit;
    CommitKeepsFences(x.store, s.disk, d);
  }

  // ---- restoration ----

  lemma WithdrawalKeeps(x: Setup, s: State, c: Call)
    requires InOrder(x, c.gens, s)
    ensures var (t, rung, cause) := Withdrawal(x, s, c);
            && InOrder(x, c.gens, t) && t.disk.isOpen == s.disk.isOpen && SameAccount(s.counters, t.counters)
            && (rung == Authorization ==> NoOpenFor(t.reg.records, c.scope))
            && (rung != Authorization ==> rung == Eligibility && t.reg == s.reg)
               && NoneNew(s.reg.records, t.reg.records)
  {
    hide F.Sound, Commit, InForce, F.Revoke, PutFence, FindFence;
    var rs, i := s.reg.records, F.FirstOpenFor(s.reg.records, c.scope);
    if i < |rs| {
      var f := rs[i];
      CommitFence(x.store, s.disk, FENCE_REVOKE, Withdrawn(f, c.decidedAt));
      if Commit(x.store, s.disk, FENCE_REVOKE, FencePayload(Withdrawn(f, c.decidedAt))).1 == Ok {
        WithdrawnStanding(x, c, s.reg, s.disk.state.fences, i);
      }
    }
  }

  /** The durable revocation and then the one in memory, taken together. */
  lemma WithdrawnStanding(x: Setup, c: Call, r: F.Registry, fs: seq<Fence>, i: nat)
    requires F.Sound(x.rules, r) && Standing(x, c.gens, r.records, fs)
    requires i < |r.records| && OpenLife(r.records[i].life) && r.records[i].intent.scope == c.scope
    ensures var f := r.records[i];
            var t := F.Revoke(r, f.intent.id, FenceIntentRevoked, c.decidedAt).0;
            && F.Sound(x.rules, t) && Standing(x, c.gens, t.records, PutFence(fs, Withdrawn(f, c.decidedAt)))
            && NoOpenFor(t.records, c.scope) && NoneNew(r.records, t.records)
  {
    hide F.Revoke, F.Sound, PutFence, InForce, FindFence;
    var f := r.records[i];
    var t := F.Revoke(r, f.intent.id, FenceIntentRevoked, c.decidedAt).0;
    InForceAt(x, c.gens, r.records, fs, i);
    RevokedStanding(x, c.gens, r, fs, f.intent.id, FenceIntentRevoked, c.decidedAt);
    RevokedLast(x, c.gens, r, fs, f.intent, FenceIntentRevoked, c.decidedAt);
    SoundOrdered(x, r);
    SoundOrdered(x, t);
    OrderedFind(r.records, i);
    forall k | 0 <= k < |t.records| && OpenLife(t.records[k].life) && t.records[k].intent.id == f.intent.id
      ensures false
    {
      OrderedFind(t.records, k);
    }
    StandingPut(x, c.gens, t.records, fs, Withdrawn(f, c.decidedAt));
  }

  lemma SoundOrdered(x: Setup, r: F.Registry)
    requires F.Sound(x.rules, r)
    ensures F.Ordered(r.records)
  {}

  lemma InForceAt(x: Setup, gens: Gens, rs: seq<Fence>, fs: seq<Fence>, i: nat)
    requires Standing(x, gens, rs, fs) && i < |rs| && OpenLife(rs[i].life)
    ensures rs[i].intent.gens == gens && InForce(x, gens, fs, rs[i].intent)
  {
    hide DurablyOpen;
  }

  /**
   * A restoration keeps the invariant; it opens no fence, and when it authorizes the subject none is open for it;
   * without a durable revocation nothing is withdrawn in memory either.
   */
  lemma RestoreKeeps(x: Setup, was: Gens, s: State, c: Call)
    requires Good(x, was, s)
    ensures var (t, d) := Restore(x, s, c);
            if Admitted(s, c) then
              && Good(x, c.gens, t) && d.intent.None? && NoneNew(Begun(x, s, c).reg.records, t.reg.records)
              && (d.stage == Authorization ==> NoOpenFor(t.reg.records, c.scope))
              && (d.stage == Eligibility ==> t.reg == Begun(x, s, c).reg)
            else Good(x, was, t) && d.intent.None? && t.reg == s.reg && t.disk == s.disk
  {
    hide F.Sound, Standing, Begun, Withdrawal, CommitDecision, NoOpenFor, NoneNew;
    if Admitted(s, c) {
      BegunKeeps(x, was, s, c);
      var b := Begun(x, s, c);
      if c.gate.authorized {
        WithdrawalKeeps(x, b, c);
      } else {
        NoneNewSelf(b.reg.records);
      }
      var (t, rung, cause) := Gated(x, b, c);
      DecisionKeeps(x, c.gens, t, RestorationOf(x, c, rung, cause));
    }
  }

  // ---- acknowledgements and effects ----

  /** A record moved on under the same intent, open before and after. */
  lemma MovedStanding(x: Setup, gens: Gens, rs: seq<Fence>, fs: seq<Fence>, i: nat, f: Fence)
    requires Standing(x, gens, rs, fs) && i < |rs| && f.intent == rs[i].intent
             && (OpenLife(f.life) ==> OpenLife(rs[i].life))
    ensures Standing(x, gens, rs[i := f], fs)
  {
    hide InForce;
  }

  lemma PublishedKeeps(x: Setup, gens: Gens, s: State, id: nat, kind: nat)
    requires Good(x, gens, s)
    ensures Good(x, gens, Published(x, s, id, kind))
  {
    hide Commit, Standing, F.OneHolder, F.Balanced, F.Ordered, PutFence;
    var i := FindFence(s.reg.records, id);
    if i < |s.reg.records| {
      CommitFence(x.store, s.disk, kind, s.reg.records[i]);
      PublishedStanding(x, gens, s.reg.records, s.disk.state.fences, i);
    }
  }

  lemma AcknowledgeFenceKeeps(x: Setup, gens: Gens, s: State, id: nat, owner: nat, now: int)
    requires Good(x, gens, s)
    ensures Good(x, gens, AcknowledgeFence(x, s, id, owner, now).0)
  {
    hide F.Sound, Standing, Published;
    F.AcknowledgeKeeps(x.rules, s.reg, id, owner, now);
    var i, t := FindFence(s.reg.records, id), F.Acknowledge(s.reg, id, owner, now).0;
    if i < |s.reg.records| && OpenLife(s.reg.records[i].life) {
      MovedStanding(x, gens, s.reg.records, s.disk.state.fences, i, t.records[i]);
    }
    if s.disk.isOpen {
      PublishedKeeps(x, gens, s.(reg := t), id, FENCE_ACK);
    }
  }

  lemma ReportEffectKeeps(x: Setup, gens: Gens, s: State, id: nat, owner: nat, verified: bool, now: int)
    requires Good(x, gens, s)
    ensures Good(x, gens, ReportEffect(x, s, id, owner, verified, now).0)
  {
    hide F.Sound, Standing, Published;
    F.ReportEffectKeeps(x.rules, s.reg, id, owner, verified, now);
    var i, t := FindFence(s.reg.records, id), F.ReportEffect(s.reg, id, owner, verified, now).0;
    if i < |s.reg.records| && OpenLife(s.reg.records[i].life) {
      MovedStanding(x, gens, s.reg.records, s.disk.state.fences, i, t.records[i]);
    }
    if s.disk.isOpen {
      PublishedKeeps(x, gens, s.(reg := t), id, FENCE_EFFECT);
    }
  }

  lemma EnrichKeeps(x: Setup, gens: Gens, s: State, d: Decision)
    requires Good(x, gens, s)
    ensures Good(x, gens, Enrich(x, s, d))
  {
    hide F.Sound, Standing, CommitDecision;
    DecisionKeeps(x, gens, s.(counters := s.counters.(enrichments := s.counters.enrichments + 1)), d);
  }

  /** A checkpoint leaves the fence table alone. */
  lemma CheckpointKeeps(x: Setup, gens: Gens, s: State)
    requires Good(x, gens, s)
    ensures Good(x, gens, Checkpoint(x, s)) && Checkpoint(x, s).disk.state == s.disk.state
  {
    hide F.Sound, Standing, Encode, RecOf;
  }

  // ---- every run ----

  datatype Op =
    | Evaluating(call: Call)
    | Restoring(call: Call)
    | Acknowledging(id: nat, owner: nat, at: int)
    | Reporting(id: nat, owner: nat, verified: bool, at: int)
    | Enriching(decision: Decision)
    | Checkpointing

  function Do(x: Setup, s: State, op: Op): State {
    match op
    case Evaluating(c) => Evaluate(x, s, c).0
    case Restoring(c) => Restore(x, s, c).0
    case Acknowledging(id, owner, at) => AcknowledgeFence(x, s, id, owner, at).0
    case Reporting(id, owner, verified, at) => ReportEffect(x, s, id, owner, verified, at).0
    case Enriching(d) => Enrich(x, s, d)
    case Checkpointing => Checkpoint(x, s)
  }

  /** The generations of the last call that reached revalidation. */
  function Under(s: State, was: Gens, op: Op): Gens {
    if (op.Evaluating? || op.Restoring?) && Admitted(s, op.call) then op.call.gens else was
  }

  /** No evaluation mints the id of a fence open in memory. */
  predicate FreshAlong(x: Setup, s: State, ops: seq<Op>)
    decreases |ops|
  {
    ops == [] || ((ops[0].Evaluating? ==> FreshCall(x, s, ops[0].call))
                  && FreshAlong(x, Do(x, s, ops[0]), ops[1..]))
  }

  function Run(x: Setup, s: State, ops: seq<Op>): State
    decreases |ops|
  {
    if ops == [] then s else Run(x, Do(x, s, ops[0]), ops[1..])
  }

  function LastGens(x: Setup, s: State, was: Gens, ops: seq<Op>): Gens
    decreases |ops|
  {
    if ops == [] then was else LastGens(x, Do(x, s, ops[0]), Under(s, was, ops[0]), ops[1..])
  }

  lemma DoKeeps(x: Setup, was: Gens, s: State, op: Op)
    requires Good(x, was, s) && Identified(x)
    requires op.Evaluating? ==> FreshCall(x, s, op.call)
    ensures Good(x, Under(s, was, op), Do(x, s, op))
  {
    hide Good, Evaluate, Restore, AcknowledgeFence, ReportEffect, Enrich, Checkpoint, Settles, Begun, FreshCall;
    match op
    case Evaluating(c) => EvaluateKeeps(x, was, s, c);
    case Restoring(c) => RestoreKeeps(x, was, s, c);
    case Acknowledging(id, owner, at) => AcknowledgeFenceKeeps(x, was, s, id, owner, at);
    case Reporting(id, owner, verified, at) => ReportEffectKeeps(x, was, s, id, owner, verified, at);
    case Enriching(d) => EnrichKeeps(x, was, s, d);
    case Checkpointing => CheckpointKeeps(x, was, s);
  }

  lemma {:induction false} RunKeeps(x: Setup, was: Gens, s: State, ops: seq<Op>)
    requires Good(x, was, s) && Identified(x) && FreshAlong(x, s, ops)
    ensures Good(x, LastGens(x, s, was, ops), Run(x, s, ops))
    decreases |ops|
  {
    hide Good, Do, Under, Begun, FreshCall;
    if ops != [] {
      DoKeeps(x, was, s, ops[0]);
      RunKeeps(x, Under(s, was, ops[0]), Do(x, s, ops[0]), ops[1..]);
    }
  }

  /** The invariant holds in every state of the run, each under the generations of its last call. */
  ghost predicate AlwaysGood(x: Setup, was: Gens, s: State, ops: seq<Op>)
    decreases |ops|
  {
    Good(x, was, s) && (ops == [] || AlwaysGood(x, Under(s, was, ops[0]), Do(x, s, ops[0]), ops[1..]))
  }

  /** The invariant holds all along a run exactly when no evaluation mints the id of a fence open in memory. */
  lemma {:induction false} RunExact(x: Setup, was: Gens, s: State, ops: seq<Op>)
    requires Good(x, was, s) && Identified(x)
    ensures AlwaysGood(x, was, s, ops) <==> FreshAlong(x, s, ops)
    decreases |ops|
  {
    hide Good, Do, Under, FreshCall;
    if ops != [] {
      DoExact(x, was, s, ops[0]);
      if Good(x, Under(s, was, ops[0]), Do(x, s, ops[0])) {
        RunExact(x, Under(s, was, ops[0]), Do(x, s, ops[0]), ops[1..]);
      } else {
        NotAlways(x, Under(s, was, ops[0]), Do(x, s, ops[0]), ops[1..]);
      }
    }
  }

  lemma NotAlways(x: Setup, was: Gens, s: State, ops: seq<Op>)
    requires !Good(x, was, s)
    ensures !AlwaysGood(x, was, s, ops)
  {
    hide Good;
  }

  lemma DoExact(x: Setup, was: Gens, s: State, op: Op)
    requires Good(x, was, s) && Identified(x)
    ensures Good(x, Under(s, was, op), Do(x, s, op)) <==> (op.Evaluating? ==> FreshCall(x, s, op.call))
  {
    hide Good, Under, Evaluate, FreshCall;
    if op.Evaluating? {
      EvaluateExact(x, was, s, op.call);
    } else {
      DoKeeps(x, was, s, op);
    }
  }

  /** The engine right after an opening: no fence in memory, whatever the store holds. */
  function Opened(d: Disk): State {
    State(F.Empty(), d, Counters(0, 0, 0, 0, 0, 0, 0, 0, 0, 0, 0))
  }

  lemma OpenedGood(x: Setup, d: Disk, gens: Gens)
    ensures Good(x, gens, Opened(d))
  {
    hide F.Sound, Standing, Accounted, Opened, F.Empty, F.Gap;
    OpenedParts(d);
    F.EmptySound(x.rules);
    EmptyStanding(x, gens, d.state.fences);
  }

  lemma OpenedParts(d: Disk)
    ensures var s := Opened(d);
            s.reg == F.Empty() && s.reg.records == [] && s.disk == d && Accounted(s.counters)
  {}

  lemma EmptyStanding(x: Setup, gens: Gens, fs: seq<Fence>)
    ensures Standing(x, gens, [], fs)
  {
    hide InForce;
  }

  /**
   * In every reachable state the open fences share one generation vector, that of the last call that reached
   * revalidation, there is at most one for a subject, each is of this incarnation and open in the durable table too,
   * and every issued fence is open or ended.
   */
  lemma EveryRun(x: Setup, d: Disk, gens: Gens, ops: seq<Op>)
    requires Identified(x) && FreshAlong(x, Opened(d), ops)
    ensures var s := Run(x, Opened(d), ops);
            var rs, fs, k := s.reg.records, s.disk.state.fences, s.reg.stats;
            && (forall i :: 0 <= i < |rs| && OpenLife(rs[i].life) ==>
                  rs[i].intent.gens == LastGens(x, Opened(d), gens, ops) && rs[i].intent.boot == x.boot
                  && rs[i].intent.incarnation == x.incarnation && DurablyOpen(fs, rs[i].intent))
            && (forall i, j :: 0 <= i < j < |rs| && OpenLife(rs[i].life) && OpenLife(rs[j].life) ==>
                  rs[i].intent.scope != rs[j].intent.scope)
            && k.issued == k.open + k.revoked + k.expired + k.fencedByRestart && k.open == F.OpenCount(rs)
            && s.counters.produced == s.counters.evaluations + s.counters.enrichments
            && s.counters.produced == s.counters.committed + s.counters.commitFailures
  {
    hide Run, LastGens, DurablyOpen, F.OpenCount, FreshAlong, Opened;
    OpenedGood(x, d, gens);
    RunKeeps(x, gens, Opened(d), ops);
    var s, g := Run(x, Opened(d), ops), LastGens(x, Opened(d), gens, ops);
    var rs := s.reg.records;
    forall i | 0 <= i < |rs| && OpenLife(rs[i].life)
      ensures InForce(x, g, s.disk.state.fences, rs[i].intent)
    {
      InForceAt(x, g, rs, s.disk.state.fences, i);
    }
  }

  // ---- the engine object ----

  lemma CommitNone(x: Setup, s: State, ids: seq<nat>)
    ensures CommitAllEnded(x, s, ids[..0]) == s && ids[..|ids|] == ids
  {}

  lemma CommitNext(x: Setup, s: State, ids: seq<nat>, k: nat)
    requires k < |ids|
    ensures CommitAllEnded(x, s, ids[..k + 1]) == CommitEnded(x, CommitAllEnded(x, s, ids[..k]), ids[k])
  {
    hide CommitEnded;
    assert ids[..k + 1][..k] == ids[..k];
  }

  class Engine {
    const setup: Setup
    const registry: F.FenceRegistry
    const store: LiveStore
    var counters: Counters

    constructor (setup: Setup, registry: F.FenceRegistry, store: LiveStore)
      requires registry.rules == setup.rules && store.config == setup.store && store.Valid()
      ensures this.setup == setup && this.registry == registry && this.store == store && Valid()
    {
      this.setup, this.registry, this.store := setup, registry, store;
      counters := Counters(0, 0, 0, 0, 0, 0, 0, 0, 0, 0, 0);
    }

    ghost predicate Valid()
      reads this, store
    {
      registry.rules == setup.rules && store.config == setup.store && store.Valid()
    }

    function Contents(): State
      reads this, registry, store
    {
      State(registry.Contents(), store.Contents(), counters)
    }

    /** The durable record of one fence that revalidation ended. */
    method RecordEnded(id: nat)
      requires Valid()
      modifies this, store
      ensures Valid() && Contents() == CommitEnded(setup, old(Contents()), id)
    {
      hide Commit;
      var i := registry.Find(id);
      if i < |registry.records| {
        var o := store.CommitFenceState(FENCE_REVOKE, registry.records[i]);
        if o != Ok {
          counters := counters.(durableFailures := counters.durableFailures + 1);
        }
        counters := counters.(revocations := counters.revocations + 1);
      }
    }

    /** Revalidation under the engine's lock. */
    method RevalidateFences(now: int, current: Gens)
      requires Valid()
      modifies this, registry, store
      ensures Valid() && Contents() == Revalidation(setup, old(Contents()), now, current)
    {
      hide F.Revalidate, CommitEnded, CommitAllEnded;
      var ids := registry.DoRevalidate(now, current);
      ghost var s := Contents();
      CommitNone(setup, s, ids);
      var k := 0;
      while k < |ids|
        invariant 0 <= k <= |ids| && Valid() && Contents() == CommitAllEnded(setup, s, ids[..k])
      {
        CommitNext(setup, s, ids, k);
        RecordEnded(ids[k]);
        k := k + 1;
      }
    }

    method RecordDecision(d: Decision) returns (o: Outcome)
      requires Valid()
      modifies this, store
      ensures Valid() && (Contents(), o) == CommitDecision(setup, old(Contents()), d)
    {
      hide Commit;
      counters := counters.(produced := counters.produced + 1);
      o := store.CommitDecision(d);
      if o != Ok {
        counters := counters.(commitFailures := counters.commitFailures + 1);
        counters := counters.(durableFailures := counters.durableFailures + 1);
      } else {
        counters := counters.(committed := counters.committed + 1);
      }
    }

    /** The two-phase issuance of an authorized call. */
    method IssueIntent(c: Call) returns (intent: Option<Intent>)
      requires Valid()
      modifies this, registry, store
      ensures Valid() && (Contents(), intent) == Issuance(setup, old(Contents()), c)
    {
      hide Commit, F.Stage, F.CommitStaged;
      intent := None;
      var so, staged := registry.DoStage(AskOf(setup, c), c.mint);
      if so == Ok && staged.Some? {
        var co := store.CommitFenceState(FENCE_INTENT, NewFence(staged.value));
        if co == Ok {
          var po := registry.DoCommitStaged(staged.value);
          if po == Ok {
            intent := staged;
            counters := counters.(intentsIssued := counters.intentsIssued + 1);
          } else {
            counters := counters.(durableFailures := counters.durableFailures + 1);
          }
        } else {
          counters := counters.(durableFailures := counters.durableFailures + 1);
          counters := counters.(failClosed := counters.failClosed + 1);
        }
      } else if so == Duplicate {
        var existing := registry.OpenFor(c.scope);
        if existing.Some? {
          intent := Some(existing.value.intent);
        }
      } else {
        counters := counters.(failClosed := counters.failClosed + 1);
      }
    }

    method DoEvaluate(c: Call) returns (d: Decision)
      requires Valid()
      modifies this, registry, store
      ensures Valid() && (Contents(), d) == Evaluate(setup, old(Contents()), c)
    {
      hide Revalidation, Issuance, CommitDecision, F.Revoke;
      if !store.isOpen {
        counters := counters.(failClosed := counters.failClosed + 1);
        return Refusal(setup, c, Unavailable);
      }
      if c.scope == 0 || !Complete(c.gens) {
        counters := counters.(failClosed := counters.failClosed + 1);
        return Refusal(setup, c, Invalid);
      }
      counters := counters.(evaluations := counters.evaluations + 1);
      RevalidateFences(c.revalidatedAt, c.gens);
      var rung := NoStage;
      if c.diagnosis.total > 0 {
        rung := Observation;
      }
      if c.diagnosis.classification.BlackholeClass? {
        rung := if c.diagnosis.corroborated then Authorization else Eligibility;
      }
      var intent: Option<Intent> := None;
      if rung == Authorization {
        intent := IssueIntent(c);
      }
      d := Decision(c.decisionId, false, c.diagnosis.outcome, c.scope, c.gens, c.diagnosis.classification,
                    c.diagnosis.cause, setup.boot, setup.incarnation, c.decidedAt,
                    if intent.Some? then IntentStage else rung, intent);
      var o := RecordDecision(d);
      if o != Ok && d.intent.Some? {
        var ignored := registry.DoRevoke(d.intent.value.id, FenceIntentRevoked, c.endedAt);
        d := d.(intent := None, stage := Authorization);
      }
    }

    /** An authorized restoration's effect on the open fence, if there is one. */
    method Withdraw(c: Call) returns (rung: Rung, cause: Cause)
      requires Valid()
      modifies this, registry, store
      ensures Valid() && (Contents(), rung, cause) == Withdrawal(setup, old(Contents()), c)
    {
      hide Commit, F.Revoke;
      rung, cause := Authorization, c.gate.cause;
      counters := counters.(authorized := counters.authorized + 1);
      var existing := registry.OpenFor(c.scope);
      if existing.Some? {
        var f := existing.value;
        var o := store.CommitFenceState(FENCE_REVOKE, Withdrawn(f, c.decidedAt));
        if o == Ok {
          var ignored := registry.DoRevoke(f.intent.id, FenceIntentRevoked, c.decidedAt);
        } else {
          counters := counters.(durableFailures := counters.durableFailures + 1);
          counters := counters.(failClosed := counters.failClosed + 1);
          rung, cause := Eligibility, PolicyRefused;
        }
      }
    }

    method DoRestore(c: Call) returns (d: Decision)
      requires Valid()
      modifies this, registry, store
      ensures Valid() && (Contents(), d) == Restore(setup, old(Contents()), c)
    {
      hide Revalidation, Withdrawal, CommitDecision;
      if !store.isOpen {
        counters := counters.(failClosed := counters.failClosed + 1, refused := counters.refused + 1);
        return Refusal(setup, c, Unavailable);
      }
      if c.scope == 0 || !Complete(c.gens) {
        counters := counters.(failClosed := counters.failClosed + 1, refused := counters.refused + 1);
        return Refusal(setup, c, Invalid);
      }
      counters := counters.(evaluations := counters.evaluations + 1);
      RevalidateFences(c.revalidatedAt, c.gens);
      var rung := if c.diagnosis.total > 0 then Observation else NoStage;
      var cause := c.gate.cause;
      if c.gate.authorized {
        rung, cause := Withdraw(c);
      } else {
        counters := counters.(refused := counters.refused + 1);
      }
      d := RestorationOf(setup, c, rung, cause);
      var o := RecordDecision(d);
      if o != Ok {
        d := d.(stage := Observation);
        counters := counters.(failClosed := counters.failClosed + 1);
      }
    }

    /** A localization found outside the lock, recorded as one more decision. */
    method DoEnrich(d: Decision)
      requires Valid()
      modifies this, store
      ensures Valid() && Contents() == Enrich(setup, old(Contents()), d)
    {
      hide CommitDecision;
      counters := counters.(enrichments := counters.enrichments + 1);
      var ignored := RecordDecision(d);
    }

    method DoCheckpoint() returns (number: nat)
      requires Valid()
      modifies store
      ensures Valid() && Contents() == Checkpoint(setup, old(Contents())) && number == old(store.lastSeq)
    {
      hide Checkpointed;
      number := store.lastSeq;
      var ignored := store.Checkpoint();
    }

    method Publish(id: nat, kind: nat)
      requires Valid()
      modifies this, store
      ensures Valid() && Contents() == Published(setup, old(Contents()), id, kind)
    {
      hide Commit;
      var i := registry.Find(id);
      if i < |registry.records| {
        var o := store.CommitFenceState(kind, registry.records[i]);
        if o != Ok {
          counters := counters.(durableFailures := counters.durableFailures + 1);
        }
      }
    }

    method DoAcknowledgeFence(id: nat, owner: nat, now: int) returns (o: Outcome)
      requires Valid()
      modifies this, registry, store
      ensures Valid() && (Contents(), o) == AcknowledgeFence(setup, old(Contents()), id, owner, now)
    {
      hide F.Acknowledge, Published;
      if !store.isOpen {
        return Rejected;
      }
      o := registry.DoAcknowledge(id, owner, now);
      if o == Ok {
        Publish(id, FENCE_ACK);
      }
    }

    method DoReportEffect(id: nat, owner: nat, verified: bool, now: int) returns (o: Outcome)
      requires Valid()
      modifies this, registry, store
      ensures Valid() && (Contents(), o) == ReportEffect(setup, old(Contents()), id, owner, verified, now)
    {
      hide F.ReportEffect, Published;
      if !store.isOpen {
        return Rejected;
      }
      o := registry.DoReportEffect(id, owner, verified, now);
      if o == Ok {
        Publish(id, FENCE_EFFECT);
      }
    }
  }
}
