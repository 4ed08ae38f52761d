/** The durable store: records, replay, live commits, and the meaning both share. */
module Store {
  import opened Crc
  import opened Bytes
  import opened Domain
  import opened Records
  import opened Journal

  const BOOT: nat := 1
  const POLICY_COMMIT: nat := 2
  const DECISION_COMMIT: nat := 3
  const FENCE_INTENT: nat := 4
  const FENCE_ACK: nat := 5
  const FENCE_EFFECT: nat := 6
  const FENCE_REVOKE: nat := 7
  const RESTORATION_COMMIT: nat := 8
  const INTERRUPTION_COMMIT: nat := 9
  const EVIDENCE_LINEAGE: nat := 10
  const EPOCH_ADVANCE: nat := 11
  const CHECKPOINT: nat := 12

  datatype Policy = Policy(version: nat, rules: nat)

  datatype Payload =
    | BootPayload(boot: nat, incarnation: nat, epoch: nat, startedAt: int, bootCount: nat, openCount: nat,
                  policy: nat, fingerprint: nat)
    | PolicyPayload(rules: Policy)
    | DecisionPayload(decision: Decision)
    | FencePayload(fence: Fence)
    | InterruptionPayload(cause: Cause, fenceId: nat, decisionId: nat, scope: Scope, priorEpoch: nat,
                          priorBoot: nat, priorIncarnation: nat, at: int)
    | CheckpointPayload(snapshotSeq: nat, checkpointEpoch: nat)
    | EpochPayload(advanced: nat)

  /** Which payload each record type carries. */
  predicate Matches(kind: nat, p: Payload) {
    match p
    case BootPayload(_, _, _, _, _, _, _, _) => kind == BOOT
    case PolicyPayload(_) => kind == POLICY_COMMIT
    case DecisionPayload(_) => kind == DECISION_COMMIT || kind == RESTORATION_COMMIT || kind == EVIDENCE_LINEAGE
    case FencePayload(_) => FENCE_INTENT <= kind <= FENCE_REVOKE
    case InterruptionPayload(_, _, _, _, _, _, _, _) => kind == INTERRUPTION_COMMIT
    case CheckpointPayload(_, _) => kind == CHECKPOINT
    case EpochPayload(_) => kind == EPOCH_ADVANCE
  }

  /** What a lineage entry says, apart from whether an earlier incarnation wrote it. */
  datatype Line = Line(
    kind: nat, number: nat, at: int, decision: nat, fence: nat, scope: Scope, gens: Gens, outcome: Outcome,
    classification: Class, cause: Cause, boot: nat, incarnation: nat)

  datatype LineageEntry = LineageEntry(line: Line, prior: bool)

  datatype Durable = Durable(
    snapshotSeq: nat, epoch: nat, bootCount: nat, openCount: nat, policy: nat, fingerprint: nat,
    lastBoot: nat, lastIncarnation: nat, decisions: nat, fencesTotal: nat, interruptions: nat,
    seen: nat, dropped: nat, lineage: seq<LineageEntry>, fences: seq<Fence>)

  /** Configuration, and the payload codec, snapshot size and policy fingerprint, which stay abstract. */
  datatype Config = Config(
    bounds: Bounds, maxLineage: nat, maxFences: nat, maxSnapshot: nat,
    enc: Payload -> seq<byte>, dec: (nat, seq<byte>) -> Option<Payload>, size: Durable -> nat,
    fingerprint: Policy -> nat)

  /** The capacity of the writer each payload is encoded into; epoch payloads are read but never written. */
  function Capacity(p: Payload): (n: nat)
    ensures n < U32
  {
    match p
    case BootPayload(_, _, _, _, _, _, _, _) => 256
    case PolicyPayload(_) => 1024
    case DecisionPayload(_) => 0x10_0000
    case FencePayload(_) => 1024
    case InterruptionPayload(_, _, _, _, _, _, _, _) => 512
    case CheckpointPayload(_, _) => 128
    case EpochPayload(_) => 0x10_0000
  }

  /** The payload's encoding fits its writer. */
  predicate Encodable(c: Config, p: Payload) {
    |c.enc(p)| <= Capacity(p)
  }

  /** The codec reads back what its writers could hold, and the lineage bound is positive. */
  ghost predicate Lawful(c: Config) {
    && c.maxLineage > 0
    && forall kind, p :: Matches(kind, p) && Encodable(c, p) ==> c.dec(kind, c.enc(p)) == Some(p)
  }

  function Blank(): Durable {
    Durable(0, 0, 0, 0, 0, 0, 0, 0, 0, 0, 0, 0, 0, [], [])
  }

  /** A record as the store means it, before encoding. */
  datatype Entry = Entry(kind: nat, number: nat, what: Payload)

  function RecOf(c: Config, e: Entry): Rec {
    Rec(e.kind, e.number, c.enc(e.what))
  }

  function DecisionLine(kind: nat, number: nat, d: Decision): Line {
    Line(kind, number, d.decidedAt, d.id, if d.intent.Some? then d.intent.value.id else 0, d.scope, d.gens, d.outcome,
         d.classification, d.cause, d.boot, d.incarnation)
  }

  function FenceLine(kind: nat, number: nat, f: Fence): Line {
    Line(kind, number, f.intent.issuedAt, f.intent.decision, f.intent.id, f.intent.scope, f.intent.gens, Ok,
         NoEvidenceClass, if f.terminal != NoCause then f.terminal else f.intent.reason,
         f.intent.boot, f.intent.incarnation)
  }

  function InterruptionLine(number: nat, p: Payload): Line
    requires p.InterruptionPayload?
  {
    Line(INTERRUPTION_COMMIT, number, p.at, p.decisionId, p.fenceId, p.scope, Gens(0, 0, 0, p.priorEpoch), Interrupted,
         UnknownClass, p.cause, p.priorBoot, p.priorIncarnation)
  }

  /** The bounded lineage: the oldest entry goes when the table is full. */
  function Pushed(c: Config, s: Durable, e: LineageEntry): Durable {
    if |s.lineage| >= c.maxLineage then
      s.(seen := s.seen + 1, dropped := s.dropped + 1,
         lineage := (if s.lineage == [] then [] else s.lineage[1..]) + [e])
    else s.(seen := s.seen + 1, lineage := s.lineage + [e])
  }

  function FindFence(fs: seq<Fence>, id: nat): (i: nat)
    ensures i <= |fs| && (i < |fs| ==> fs[i].intent.id == id)
    ensures forall j :: 0 <= j < i ==> fs[j].intent.id != id
  {
    if fs == [] || fs[0].intent.id == id then 0 else FindFence(fs[1..], id) + 1
  }

  function PutFence(fs: seq<Fence>, f: Fence): (r: seq<Fence>) {
    var i := FindFence(fs, f.intent.id);
    if i < |fs| then fs[i := f] else fs + [f]
  }

  predicate Known(fs: seq<Fence>, id: nat) {
    FindFence(fs, id) < |fs|
  }

  predicate Room(c: Config, fs: seq<Fence>, f: Fence) {
    Known(fs, f.intent.id) || |fs| < c.maxFences
  }

  /** Replay of one decoded record. */
  function ApplyPayload(c: Config, s: Durable, e: Entry): (Durable, Outcome) {
    match e.what
    case BootPayload(boot, incarnation, epoch, _, bootCount, openCount, policy, _) =>
      if epoch <= s.epoch && s.epoch != 0 then (s, Corrupt)
      else
        (s.(epoch := epoch, bootCount := bootCount, openCount := openCount, policy := policy,
            lastBoot := boot, lastIncarnation := incarnation), Ok)
    case PolicyPayload(p) => (s.(policy := p.version, fingerprint := c.fingerprint(p)), Ok)
    case CheckpointPayload(snapshotSeq, _) => if snapshotSeq > e.number then (s, Corrupt) else (s, Ok)
    case DecisionPayload(d) =>
      var t := Pushed(c, s, LineageEntry(DecisionLine(e.kind, e.number, d), false));
      (if e.kind == DECISION_COMMIT then t.(decisions := t.decisions + 1) else t, Ok)
    case FencePayload(f) =>
      if !Room(c, s.fences, f) then (s, Exhausted)
      else
        var t := s.(fences := PutFence(s.fences, f),
                    fencesTotal := s.fencesTotal + (if e.kind == FENCE_INTENT then 1 else 0));
        (Pushed(c, t, LineageEntry(FenceLine(e.kind, e.number, f), false)), Ok)
    case InterruptionPayload(_, _, _, _, _, _, _, _) =>
      (Pushed(c, s.(interruptions := s.interruptions + 1), LineageEntry(InterruptionLine(e.number, e.what), true)), Ok)
    case EpochPayload(advanced) => if advanced <= s.epoch then (s, Corrupt) else (s.(epoch := advanced), Ok)
  }

  /** The store in memory: the durable state and the last record number. */
  datatype Mem = Mem(state: Durable, lastSeq: nat)

  /** Replay of one record: decoded, applied, numbered. */
  function Apply(c: Config, m: Mem, r: Rec): (Mem, Outcome) {
    var p := c.dec(r.kind, r.payload);
    if p.None? then (m, Malformed)
    else
      var (s, o) := ApplyPayload(c, m.state, Entry(r.kind, r.number, p.value));
      if o != Ok then (m, o) else (Mem(s, r.number), Ok)
  }

  /** The replay visitor: records the snapshot already holds are skipped. */
  function VisitRecord(c: Config, snapshotSeq: nat, m: Mem, r: Rec): (Mem, Outcome) {
    if r.number <= snapshotSeq then (m, Ok) else Apply(c, m, r)
  }

  function Visitor(c: Config, snapshotSeq: nat): Visit<Mem> {
    (m: Mem, r: Rec) => VisitRecord(c, snapshotSeq, m, r)
  }

  /** What a commit does to the live state once its record is durable. */
  function Live(c: Config, s: Durable, e: Entry): (Durable, Outcome) {
    match e.what
    case BootPayload(_, _, _, _, _, _, _, _) => (s, Ok)
    case PolicyPayload(p) => (s.(policy := p.version, fingerprint := c.fingerprint(p)), Ok)
    case CheckpointPayload(_, _) => (s, Ok)
    case DecisionPayload(d) =>
      (Pushed(c, s.(decisions := s.decisions + 1), LineageEntry(DecisionLine(e.kind, e.number, d), false)), Ok)
    case FencePayload(f) =>
      var i := FindFence(s.fences, f.intent.id);
      if i == |s.fences| && |s.fences| >= c.maxFences then (s, Exhausted)
      else
        var t := if i == |s.fences| then
                   s.(fences := s.fences + [f],
                      fencesTotal := s.fencesTotal + (if e.kind == FENCE_INTENT then 1 else 0))
                 else s.(fences := s.fences[i := f]);
        (Pushed(c, t, LineageEntry(FenceLine(e.kind, e.number, f), false)), Ok)
    case InterruptionPayload(_, _, _, _, _, _, _, _) =>
      (Pushed(c, s.(interruptions := s.interruptions + 1), LineageEntry(InterruptionLine(e.number, e.what), true)), Ok)
    case EpochPayload(advanced) => (s.(epoch := advanced), Ok)
  }

  // ---- the meaning of a history of records ----

  /**
   * What survives a restart: everything but the last boot's identity, the snapshot number, which entries an
   * earlier incarnation wrote, the policy's version number (its fingerprint is kept) and the total of fences issued.
   */
  datatype Core = Core(
    epoch: nat, bootCount: nat, openCount: nat, fingerprint: nat, decisions: nat,
    interruptions: nat, seen: nat, dropped: nat, lineage: seq<Line>, fences: seq<Fence>)

  function Lines(l: seq<LineageEntry>): (r: seq<Line>)
    ensures |r| == |l|
  {
    seq(|l|, i requires 0 <= i < |l| => l[i].line)
  }

  function CoreOf(s: Durable): Core {
    Core(s.epoch, s.bootCount, s.openCount, s.fingerprint, s.decisions, s.interruptions,
         s.seen, s.dropped, Lines(s.lineage), s.fences)
  }

  lemma CoreFields(s: Durable)
    ensures CoreOf(s).fences == s.fences && CoreOf(s).epoch == s.epoch && CoreOf(s).interruptions == s.interruptions
  {}

  /** The newest n of a list. */
  function Newest<T>(s: seq<T>, n: nat): seq<T> {
    if |s| <= n then s else s[|s| - n..]
  }

  function Recorded(c: Config, k: Core, l: Line): Core {
    var all := k.lineage + [l];
    k.(seen := k.seen + 1, lineage := Newest(all, c.maxLineage),
       dropped := k.dropped + |all| - |Newest(all, c.maxLineage)|)
  }

  /** One record's meaning. A fence record that found the table full means nothing. */
  function Means(c: Config, k: Core, e: Entry): Core {
    match e.what
    case BootPayload(_, _, epoch, _, bootCount, openCount, _, _) =>
      k.(epoch := epoch, bootCount := bootCount, openCount := openCount)
    case PolicyPayload(p) => k.(fingerprint := c.fingerprint(p))
    case CheckpointPayload(_, _) => k
    case DecisionPayload(d) =>
      Recorded(c, k.(decisions := k.decisions + (if e.kind == DECISION_COMMIT then 1 else 0)),
               DecisionLine(e.kind, e.number, d))
    case FencePayload(f) =>
      if !Room(c, k.fences, f) then k
      else
        Recorded(c, k.(fences := PutFence(k.fences, f)), FenceLine(e.kind, e.number, f))
    case InterruptionPayload(_, _, _, _, _, _, _, _) =>
      Recorded(c, k.(interruptions := k.interruptions + 1), InterruptionLine(e.number, e.what))
    case EpochPayload(advanced) => k.(epoch := advanced)
  }

  function Meaning(c: Config, log: seq<Entry>): Core {
    if log == [] then CoreOf(Blank()) else Means(c, Meaning(c, log[..|log| - 1]), log[|log| - 1])
  }

  lemma MeaningNext(c: Config, log: seq<Entry>, e: Entry)
    ensures Meaning(c, log + [e]) == Means(c, Meaning(c, log), e)
  {
    hide Means, CoreOf;
    assert (log + [e])[..|log|] == log;
  }

  /** When replay takes a record rather than refusing it. */
  predicate Accepts(c: Config, k: Core, e: Entry) {
    match e.what
    case BootPayload(_, _, epoch, _, _, _, _, _) => epoch > k.epoch || k.epoch == 0
    case CheckpointPayload(snapshotSeq, _) => snapshotSeq <= e.number
    case FencePayload(f) => Room(c, k.fences, f)
    case EpochPayload(advanced) => advanced > k.epoch
    case _ => true
  }

  /** An intent record that finds room in the table. */
  predicate Issues(c: Config, fs: seq<Fence>, e: Entry) {
    e.what.FencePayload? && e.kind == FENCE_INTENT && Room(c, fs, e.what.fence)
  }

  /** An intent record names a fence not seen before. */
  predicate FreshIntent(fs: seq<Fence>, e: Entry) {
    e.what.FencePayload? && e.kind == FENCE_INTENT ==> !Known(fs, e.what.fence.intent.id)
  }

  lemma PushedRecords(c: Config, s: Durable, e: LineageEntry)
    requires c.maxLineage > 0 && |s.lineage| <= c.maxLineage
    ensures CoreOf(Pushed(c, s, e)) == Recorded(c, CoreOf(s), e.line)
    ensures |Pushed(c, s, e).lineage| <= c.maxLineage
  {
    var t := Pushed(c, s, e);
    assert Lines(t.lineage) == Newest(Lines(s.lineage) + [e.line], c.maxLineage);
  }

  /** A live commit does what its record means. */
  lemma LiveSteps(c: Config, s: Durable, e: Entry)
    requires c.maxLineage > 0 && |s.lineage| <= c.maxLineage && !e.what.BootPayload?
    requires e.what.DecisionPayload? ==> e.kind == DECISION_COMMIT
    ensures CoreOf(Live(c, s, e).0) == Means(c, CoreOf(s), e)
    ensures |Live(c, s, e).0.lineage| <= c.maxLineage
    ensures Live(c, s, e).1 == Ok <==> e.what.FencePayload? ==> Room(c, s.fences, e.what.fence)
  {
    hide Pushed, Recorded;
    match e.what
    case DecisionPayload(d) =>
      PushedRecords(c, s.(decisions := s.decisions + 1), LineageEntry(DecisionLine(e.kind, e.number, d), false));
    case FencePayload(f) =>
      LiveFenceSteps(c, s, e);
    case InterruptionPayload(_, _, _, _, _, _, _, _) =>
      PushedRecords(c, s.(interruptions := s.interruptions + 1),
                    LineageEntry(InterruptionLine(e.number, e.what), true));
    case _ =>
  }

  lemma LiveFenceSteps(c: Config, s: Durable, e: Entry)
    requires c.maxLineage > 0 && |s.lineage| <= c.maxLineage && e.what.FencePayload?
    ensures CoreOf(Live(c, s, e).0) == Means(c, CoreOf(s), e)
    ensures |Live(c, s, e).0.lineage| <= c.maxLineage
  {
    hide Pushed, Recorded, FenceLine;
    var f := e.what.fence;
    if Room(c, s.fences, f) {
      var total := s.fencesTotal + (if e.kind == FENCE_INTENT && !Known(s.fences, f.intent.id) then 1 else 0);
      PushedRecords(c, s.(fences := PutFence(s.fences, f), fencesTotal := total),
                    LineageEntry(FenceLine(e.kind, e.number, f), false));
    }
  }

  /** Replay takes a record exactly when it is acceptable, and then does what the record means. */
  lemma ApplySteps(c: Config, m: Mem, e: Entry)
    requires Lawful(c) && |m.state.lineage| <= c.maxLineage && Matches(e.kind, e.what) && Encodable(c, e.what)
    ensures var (t, o) := Apply(c, m, RecOf(c, e));
            && (o == Ok <==> Accepts(c, CoreOf(m.state), e))
            && (o == Ok ==> CoreOf(t.state) == Means(c, CoreOf(m.state), e) && t.lastSeq == e.number
                            && |t.state.lineage| <= c.maxLineage && t.state.snapshotSeq == m.state.snapshotSeq)
  {
    hide Pushed, Recorded, FenceLine, DecisionLine, InterruptionLine;
    var s := m.state;
    assert c.dec(e.kind, c.enc(e.what)) == Some(e.what);
    PushedKeepsNumber(c, s, e);
    match e.what
    case DecisionPayload(d) =>
      PushedRecords(c, s, LineageEntry(DecisionLine(e.kind, e.number, d), false));
      RecordedCounts(c, CoreOf(s), DecisionLine(e.kind, e.number, d));
    case FencePayload(f) =>
      if Room(c, s.fences, f) {
        PushedRecords(c, s.(fences := PutFence(s.fences, f),
                            fencesTotal := s.fencesTotal + (if e.kind == FENCE_INTENT then 1 else 0)),
                      LineageEntry(FenceLine(e.kind, e.number, f), false));
      }
    case InterruptionPayload(_, _, _, _, _, _, _, _) =>
      PushedRecords(c, s.(interruptions := s.interruptions + 1),
                    LineageEntry(InterruptionLine(e.number, e.what), true));
    case _ =>
  }

  lemma RecordedCounts(c: Config, k: Core, l: Line)
    ensures forall n: nat :: Recorded(c, k.(decisions := n), l) == Recorded(c, k, l).(decisions := n)
  {}

  lemma PushedKeepsNumber(c: Config, s: Durable, e: Entry)
    ensures ApplyPayload(c, s, e).0.snapshotSeq == s.snapshotSeq
  {}

  // ---- the lineage, told in full ----

  /** The lineage line a record adds to a history, if any. */
  function Tells(c: Config, k: Core, e: Entry): seq<Line> {
    match e.what
    case DecisionPayload(d) => [DecisionLine(e.kind, e.number, d)]
    case FencePayload(f) => if Room(c, k.fences, f) then [FenceLine(e.kind, e.number, f)] else []
    case InterruptionPayload(_, _, _, _, _, _, _, _) => [InterruptionLine(e.number, e.what)]
    case _ => []
  }

  function Told(c: Config, log: seq<Entry>): seq<Line> {
    if log == [] then []
    else
      var front := log[..|log| - 1];
      Told(c, front) + Tells(c, Meaning(c, front), log[|log| - 1])
  }

  lemma NewestNext<T>(s: seq<T>, n: nat, x: T)
    ensures Newest(Newest(s, n) + [x], n) == Newest(s + [x], n)
  {}

  lemma RecordedTells(c: Config, k: Core, told: seq<Line>, l: Line)
    requires k.lineage == Newest(told, c.maxLineage) && k.seen == |told| && k.seen == |k.lineage| + k.dropped
    ensures var r := Recorded(c, k, l);
            r.lineage == Newest(told + [l], c.maxLineage) && r.seen == |told + [l]| && r.seen == |r.lineage| + r.dropped
  {
    NewestNext(told, c.maxLineage, l);
  }

  /** The kept lineage is the newest part of the whole one, and the dropped part is counted exactly. */
  lemma {:induction false} LineageExact(c: Config, log: seq<Entry>)
    ensures var k := Meaning(c, log);
            && k.lineage == Newest(Told(c, log), c.maxLineage) && k.seen == |Told(c, log)|
            && k.seen == |k.lineage| + k.dropped
  {
    hide Recorded, Room, PutFence, Known, DecisionLine, FenceLine, InterruptionLine, Newest;
    if log == [] {
      NewestNone<Line>(c.maxLineage);
    } else {
      var front, e := log[..|log| - 1], log[|log| - 1];
      LineageExact(c, front);
      var k, told := Meaning(c, front), Told(c, front);
      assert told + [] == told;
      match e.what
      case DecisionPayload(d) =>
        var l := DecisionLine(e.kind, e.number, d);
        RecordedTells(c, k.(decisions := k.decisions + (if e.kind == DECISION_COMMIT then 1 else 0)), told, l);
      case FencePayload(f) =>
        if Room(c, k.fences, f) {
          RecordedTells(c, k.(fences := PutFence(k.fences, f)), told, FenceLine(e.kind, e.number, f));
        }
      case InterruptionPayload(_, _, _, _, _, _, _, _) =>
        RecordedTells(c, k.(interruptions := k.interruptions + 1), told, InterruptionLine(e.number, e.what));
      case _ =>
    }
  }

  lemma NewestNone<T>(n: nat)
    ensures Newest<T>([], n) == []
  {}

  /** By how much a record raises the total of fences issued, live. */
  lemma TotalOfLive(c: Config, s: Durable, e: Entry)
    ensures Live(c, s, e).0.fencesTotal ==
            s.fencesTotal + (if Issues(c, s.fences, e) && FreshIntent(s.fences, e) then 1 else 0)
  {
    hide PutFence, Lines, FenceLine, DecisionLine, InterruptionLine;
  }

  /** Replay raises the total for an intent record of a known fence too. */
  lemma TotalsAgree(c: Config, m: Mem, e: Entry)
    requires Lawful(c) && Matches(e.kind, e.what) && Encodable(c, e.what)
    ensures Apply(c, m, RecOf(c, e)).0.state.fencesTotal ==
            m.state.fencesTotal + (if Issues(c, m.state.fences, e) then 1 else 0)
    ensures Apply(c, m, RecOf(c, e)).0.state.fencesTotal == Live(c, m.state, e).0.fencesTotal <==>
            FreshIntent(m.state.fences, e)
  {
    hide PutFence, Lines, FenceLine, DecisionLine, InterruptionLine;
    assert c.dec(e.kind, c.enc(e.what)) == Some(e.what);
    TotalOfLive(c, m.state, e);
  }

  // ---- the fence table, told in full ----

  /** The fences a history names, in the order of their first records. */
  function Named(log: seq<Entry>): (ids: seq<nat>)
    ensures forall i, j :: 0 <= i < j < |ids| ==> ids[i] != ids[j]
  {
    if log == [] then []
    else
      var ids, e := Named(log[..|log| - 1]), log[|log| - 1];
      if e.what.FencePayload? && e.what.fence.intent.id !in ids then ids + [e.what.fence.intent.id] else ids
  }

  /** The fence of the last record written for an id. */
  function LastWritten(log: seq<Entry>, id: nat): Option<Fence> {
    if log == [] then None
    else
      var e := log[|log| - 1];
      if e.what.FencePayload? && e.what.fence.intent.id == id then Some(e.what.fence)
      else LastWritten(log[..|log| - 1], id)
  }

  function Oldest<T>(s: seq<T>, n: nat): seq<T> {
    if |s| <= n then s else s[..n]
  }

  ghost predicate TableIs(fs: seq<Fence>, ids: seq<nat>, log: seq<Entry>) {
    && |fs| == |ids|
    && forall i :: 0 <= i < |ids| ==> fs[i].intent.id == ids[i] && LastWritten(log, ids[i]) == Some(fs[i])
  }

  lemma NamedNext(log: seq<Entry>, e: Entry)
    ensures var ids := Named(log);
            Named(log + [e]) ==
            if e.what.FencePayload? && e.what.fence.intent.id !in ids then ids + [e.what.fence.intent.id] else ids
    ensures forall id :: LastWritten(log + [e], id) ==
              (if e.what.FencePayload? && e.what.fence.intent.id == id then Some(e.what.fence)
               else LastWritten(log, id))
  {
    assert (log + [e])[..|log|] == log;
  }

  lemma TableKept(fs: seq<Fence>, ids: seq<nat>, log: seq<Entry>, e: Entry)
    requires TableIs(fs, ids, log) && (e.what.FencePayload? ==> e.what.fence.intent.id !in ids)
    ensures TableIs(fs, ids, log + [e])
  {
    NamedNext(log, e);
    hide LastWritten, Named;
  }

  /** The place of a fence in the table is the place of its id. */
  lemma TableFinds(fs: seq<Fence>, ids: seq<nat>, log: seq<Entry>, id: nat)
    requires TableIs(fs, ids, log)
    ensures Known(fs, id) <==> id in ids
    ensures id in ids ==> ids[FindFence(fs, id)] == id
  {
    hide LastWritten;
    if id in ids {
      var i :| 0 <= i < |ids| && ids[i] == id;
      assert fs[i].intent.id == id;
    }
  }

  lemma TablePut(c: Config, fs: seq<Fence>, log: seq<Entry>, e: Entry)
    requires e.what.FencePayload? && TableIs(fs, Oldest(Named(log), c.maxFences), log)
    ensures var f := e.what.fence;
            TableIs(if Room(c, fs, f) then PutFence(fs, f) else fs, Oldest(Named(log + [e]), c.maxFences), log + [e])
  {
    hide LastWritten, Named, FindFence;
    var f, ids := e.what.fence, Named(log);
    var id, kept := f.intent.id, Oldest(ids, c.maxFences);
    NamedNext(log, e);
    TableFinds(fs, kept, log, id);
    if id in kept {
      KnownOnce(log, c.maxFences, FindFence(fs, id));
    } else if |fs| < c.maxFences {
      assert kept == ids;
    } else {
      assert Oldest(ids + [id], c.maxFences) == kept;
    }
  }

  lemma KnownOnce(log: seq<Entry>, n: nat, i: nat)
    requires i < |Oldest(Named(log), n)|
    ensures forall j :: 0 <= j < |Oldest(Named(log), n)| && j != i ==>
              Oldest(Named(log), n)[j] != Oldest(Named(log), n)[i]
    ensures Oldest(Named(log), n)[i] in Named(log)
  {
    hide Named;
  }

  lemma RecordedFences(c: Config)
    ensures forall k, l :: Recorded(c, k, l).fences == k.fences
  {}

  /** The table holds the first fences named, as many as fit, each as its last record has it. */
  lemma {:induction false} FenceTableExact(c: Config, log: seq<Entry>)
    ensures TableIs(Meaning(c, log).fences, Oldest(Named(log), c.maxFences), log)
  {
    hide Recorded, DecisionLine, FenceLine, InterruptionLine, TableIs, Named, LastWritten, Room, PutFence, Known;
    if log == [] {
      NothingNamed(c);
    } else {
      var front, e := log[..|log| - 1], log[|log| - 1];
      FenceTableExact(c, front);
      RecordedFences(c);
      assert front + [e] == log;
      NamedNext(front, e);
      if e.what.FencePayload? {
        TablePut(c, Meaning(c, front).fences, front, e);
      } else {
        TableKept(Meaning(c, front).fences, Oldest(Named(front), c.maxFences), front, e);
      }
    }
  }

  lemma NothingNamed(c: Config)
    ensures TableIs(Meaning(c, []).fences, Oldest(Named([]), c.maxFences), [])
  {}

  // ---- the counters, told in full ----

  function HowMany(log: seq<Entry>, kind: nat): nat {
    if log == [] then 0 else HowMany(log[..|log| - 1], kind) + (if log[|log| - 1].kind == kind then 1 else 0)
  }

  /** The decisions and interruptions counted are the records of those types. */
  lemma {:induction false} CountsExact(c: Config, log: seq<Entry>)
    requires forall i :: 0 <= i < |log| ==> Matches(log[i].kind, log[i].what)
    ensures Meaning(c, log).decisions == HowMany(log, DECISION_COMMIT)
    ensures Meaning(c, log).interruptions == HowMany(log, INTERRUPTION_COMMIT)
  {
    hide DecisionLine, FenceLine, InterruptionLine, Room, PutFence, Known, Newest;
    if log != [] {
      assert Matches(log[|log| - 1].kind, log[|log| - 1].what);
      CountsExact(c, log[..|log| - 1]);
    }
  }
}
