/** Concrete runs: the hypotheses about whole runs of the engine can be met, and a colliding identity is an input. */
module Examples {
  import opened Crc
  import opened Bytes
  import opened Domain
  import opened Records
  import opened Journal
  import opened Store
  import opened Restart
  import opened LiveStore
  import M = StoreRuns
  import E = Engine
  import F = Fences
  import R = EngineRuns

  const GENS := Gens(1, 1, 1, 1)
  const POLICY := Policy(1, 0)
  const RULES := F.Rules(2, 1, 10)

  /** An authorized evaluation of one subject. */
  function CallFor(scope: Scope, id: nat): E.Call {
    E.Call(scope, GENS, E.Diagnosis(Ok, BlackholeClass, NoCause, true, 1), E.Gate(Ok, false, NoCause), 0, 0, 0,
           F.Mint(id, 1), 1)
  }

  function IntentFor(scope: Scope, id: nat): Intent {
    Intent(id, 1, scope, GENS, 1, 1, 1, NoCause, 0, 10)
  }

  const FENCE := NewFence(IntentFor(1, 7))
  const OTHER := NewFence(IntentFor(2, 7))
  const BOOTED := BootPayload(1, 1, 1, 0, 1, 1, 1, 0)
  const DECIDED := Decision(1, false, Ok, 1, GENS, BlackholeClass, NoCause, 1, 1, 0, IntentStage, Some(IntentFor(1, 7)))

  // ---- a store that can write four records ----

  predicate Short(p: Payload) {
    p == BOOTED || p == FencePayload(FENCE) || p == DecisionPayload(DECIDED)
  }

  /**
   * Three payloads encode to nothing, told apart by their record types, one fence to a byte; no other fits its writer.
   */
  function Write(p: Payload): seq<byte> {
    if Short(p) then [] else if p == FencePayload(OTHER) then [0] else seq(Capacity(p) + 1, i => 0)
  }

  function Read(kind: nat, bytes: seq<byte>): Option<Payload> {
    if kind == BOOT then Some(BOOTED)
    else if kind < FENCE_INTENT || kind > FENCE_REVOKE then Some(DecisionPayload(DECIDED))
    else Some(FencePayload(if bytes == [] then FENCE else OTHER))
  }

  const STORE := Config(Bounds(1, 100, 10), 10, 1, 0, Write, Read, (d: Durable) => 0, (p: Policy) => 0)
  const SETUP := E.Setup(STORE, RULES, 1, 1)
  const OPENING := [M.Open(1, 1, 0, POLICY), M.Ack]

  lemma StoreLawful()
    ensures Lawful(STORE)
  {}

  // ---- one fence, minted, durable and open ----

  lemma OneRecord(e: Entry)
    requires Short(e.what)
    ensures |Encode(RecOf(STORE, e))| == HEADER + TRAILER && Encodable(STORE, e.what)
  {
    hide Checksum;
  }

  lemma NothingEnded(d: Disk, c: E.Call)
    ensures E.Begun(SETUP, E.Opened(d), c) == E.Opened(d).(counters := E.Opened(d).counters.(evaluations := 1))
  {}

  lemma Appends(d: Disk)
    requires d.isOpen && d.state.fences == [] && |d.journal| < 100
    ensures var (e, o) := Commit(STORE, d, FENCE_INTENT, FencePayload(FENCE));
            && o == Ok && e.isOpen && e.state.fences == [FENCE] && e.lastSeq == d.lastSeq + 1
            && |e.journal| == |d.journal| + 28 && E.TakesFence(STORE, d, FENCE)
  {
    hide Encode, Encodable, RecOf, Pushed, FenceLine;
    OneRecord(Entry(FENCE_INTENT, d.lastSeq + 1, FencePayload(FENCE)));
    E.CommitFence(STORE, d, FENCE_INTENT, FENCE);
  }

  lemma Staged()
    ensures var (r, o, i) := F.Stage(RULES, F.Empty(), E.AskOf(SETUP, CallFor(1, 7)), F.Mint(7, 1));
            && o == Ok && i == Some(FENCE.intent) && r.records == []
            && F.CommitStaged(RULES, r, FENCE.intent).1 == Ok
               && F.CommitStaged(RULES, r, FENCE.intent).0.records == [FENCE]
    ensures F.Vacant(RULES, F.Empty(), 1, GENS) && F.Lasts(RULES, 0)
    ensures F.IntentFor(RULES, E.AskOf(SETUP, CallFor(1, 7)), F.Mint(7, 1)) == FENCE.intent
  {}

  /** The intent staged, durable, and recorded. */
  lemma Issued(s: E.State)
    requires s.reg == F.Empty() && s.disk.isOpen && s.disk.state.fences == [] && |s.disk.journal| < 100
    ensures var (t, i) := E.Issuance(SETUP, s, CallFor(1, 7));
            && i == Some(FENCE.intent) && t.reg.records == [FENCE] && t.disk.isOpen && t.disk.state.fences == [FENCE]
            && t.disk.lastSeq == s.disk.lastSeq + 1 && |t.disk.journal| == |s.disk.journal| + 28
            && E.Mints(SETUP, s, CallFor(1, 7))
  {
    hide Commit, F.Stage, F.CommitStaged, F.Vacant, F.Lasts, F.Empty, F.IntentFor, E.TakesFence, E.AskOf;
    Staged();
    Appends(s.disk);
  }

  lemma Decided(s: E.State)
    requires s.disk.isOpen && |s.disk.journal| < 100
    ensures var (t, d) := E.Concluded(SETUP, s, DECIDED, 0);
            && t.reg == s.reg && t.disk.state.fences == s.disk.state.fences && t.disk.isOpen
            && t.disk.lastSeq == s.disk.lastSeq + 1 && |t.disk.journal| == |s.disk.journal| + 28
  {
    hide Encode, Encodable, RecOf, DecisionLine, Pushed;
    OneRecord(Entry(DECISION_COMMIT, s.disk.lastSeq + 1, DecisionPayload(DECIDED)));
    E.DecisionFences(SETUP, s, DECIDED);
  }

  /** One evaluation on a store without fences leaves one, open in memory and in the durable table. */
  lemma Evaluated(d: Disk)
    requires d.isOpen && d.state.fences == [] && |d.journal| < 72
    ensures var s := E.Opened(d);
            var t := E.Evaluate(SETUP, s, CallFor(1, 7)).0;
            && E.FreshCall(SETUP, s, CallFor(1, 7)) && t.reg.records == [FENCE] && t.disk.state.fences == [FENCE]
            && t.disk.isOpen && t.disk.lastSeq == d.lastSeq + 2 && |t.disk.journal| == |d.journal| + 56
  {
    hide E.Begun, E.Issuance, E.Concluded, E.Mints, F.Empty, E.Opened;
    var s, c := E.Opened(d), CallFor(1, 7);
    E.OpenedParts(d);
    NothingEnded(d, c);
    var b := E.Begun(SETUP, s, c);
    Issued(b);
    Decided(E.Issuance(SETUP, b, c).0);
  }

  /** The first opening of this store, and what its files hold. */
  lemma Opening()
    ensures R.LeftOpen(STORE, OPENING)
    ensures var d := R.Started(SETUP, OPENING).disk;
            R.Started(SETUP, OPENING) == E.Opened(d) && d.isOpen && d.state.fences == [] && |d.journal| == 28
              && d.lastSeq == 1
  {
    hide M.Run, M.Fresh, Encode, E.Opened;
    OneRecord(M.FirstBoot(STORE, OPENING[0]));
    M.FirstOpening(STORE, OPENING[0]);
    E.OpenedParts(DiskOf(M.Run(STORE, M.Fresh(), OPENING)));
  }

  /** The hypotheses about whole runs are met by a run that leaves a fence open in memory. */
  lemma FenceRun()
    ensures var ops := [E.Evaluating(CallFor(1, 7))];
            && E.Identified(SETUP) && Lawful(STORE) && R.LeftOpen(STORE, OPENING)
            && E.FreshAlong(SETUP, R.Started(SETUP, OPENING), ops)
            && R.Numbered(E.Run(SETUP, R.Started(SETUP, OPENING), ops).disk)
            && E.Run(SETUP, R.Started(SETUP, OPENING), ops).reg.records == [FENCE]
            && OpenLife(FENCE.life)
  {
    hide E.Evaluate, E.Opened, R.LeftOpen, E.FreshCall;
    Opening();
    var s := R.Started(SETUP, OPENING);
    Evaluated(s.disk);
    var none: seq<E.Op> := [];
    assert [E.Evaluating(CallFor(1, 7))][1..] == none;
  }

  const INTENDED := Entry(FENCE_INTENT, 2, FencePayload(FENCE))
  const RECORDED := Entry(DECISION_COMMIT, 3, DecisionPayload(DECIDED))

  function Writes(): seq<M.Event> {
    M.Commits(FENCE_INTENT, FencePayload(FENCE)) + M.Commits(DECISION_COMMIT, DecisionPayload(DECIDED))
  }

  /** The two commits of that evaluation, on the machine. */
  lemma WritesDone()
    ensures var t := M.Run(STORE, M.Fresh(), OPENING + Writes());
            && M.Good(STORE, t) && t.process.Up? && t.pending.None? && !t.halfDone && t.base == 0
            && t.log == [M.FirstBoot(STORE, OPENING[0])] + [INTENDED] + [RECORDED] && |t.journal| == 84
  {
    hide M.Run, M.Fresh, Encode, M.Good, Encodable, M.FirstBoot, M.Commits;
    OpeningIsBoot();
    OneRecord(M.FirstBoot(STORE, OPENING[0]));
    OneRecord(INTENDED);
    OneRecord(RECORDED);
    M.FirstOpening(STORE, OPENING[0]);
    M.FreshGood(STORE);
    StoreLawful();
    var first, more := M.Commits(FENCE_INTENT, FencePayload(FENCE)),
        M.Commits(DECISION_COMMIT, DecisionPayload(DECIDED));
    var s := M.Run(STORE, M.Fresh(), OPENING);
    M.RunGood(STORE, M.Fresh(), OPENING);
    M.Committing(STORE, s, FENCE_INTENT, FencePayload(FENCE));
    M.RunGood(STORE, s, first);
    M.Committing(STORE, M.Run(STORE, s, first), DECISION_COMMIT, DecisionPayload(DECIDED));
    M.RunGood(STORE, M.Run(STORE, s, first), more);
    M.RunAppend(STORE, s, first, more);
    M.RunAppend(STORE, M.Fresh(), OPENING, first + more);
  }

  lemma OneFenceMeant(boot: Entry)
    requires boot.what.BootPayload?
    ensures var log := [boot] + [INTENDED] + [RECORDED];
            Meaning(STORE, log).fences == [FENCE] && M.Roomy(STORE, log, 0)
  {
    hide Newest, FenceLine, DecisionLine;
    assert [] + [boot] == [boot];
    MeaningNext(STORE, [], boot);
    MeaningNext(STORE, [boot], INTENDED);
    MeaningNext(STORE, [boot] + [INTENDED], RECORDED);
    assert ([boot] + [INTENDED] + [RECORDED])[..1] == [boot];
  }

  /** Read back, the fence is there and open, and the next opening fences it. */
  lemma FenceRead()
    ensures var t := M.Run(STORE, M.Fresh(), OPENING + Writes());
            var r := M.Recover(STORE, t.snapshot, t.journal);
            r.Recovered? && r.mem.state.fences == [FENCE] && R.FencedIn(SettledAll([FENCE]), FENCE.intent)
  {
    hide M.Run, M.Fresh, M.Good, M.Recover, Meaning, M.FirstBoot, M.Roomy, M.Readable, M.RecsOf, Lawful, SettledAll;
    hide R.FencedIn, FENCE;
    WritesDone();
    StoreLawful();
    var t := M.Run(STORE, M.Fresh(), OPENING + Writes());
    var boot := M.FirstBoot(STORE, OPENING[0]);
    OpeningIsBoot();
    OneFenceMeant(boot);
    AllReadable(t, boot);
    assert t.log[..|t.log|] == t.log;
    M.RecoverExact(STORE, t);
    FenceFenced();
  }

  lemma FenceFenced()
    ensures R.FencedIn(SettledAll([FENCE]), FENCE.intent)
  {}

  lemma AllReadable(t: M.System, boot: Entry)
    requires boot.what == BOOTED && t.log == [boot] + [INTENDED] + [RECORDED] && t.pending.None? && t.base == 0
             && |t.journal| == 84
    ensures M.Readable(STORE, t)
  {
    hide M.RecsOf;
    AllShort(boot);
    assert t.log[0..] == t.log;
  }

  lemma OpeningIsBoot()
    ensures M.FirstBoot(STORE, OPENING[0]).what == BOOTED && M.Opens(STORE, OPENING[0])
  {}

  lemma AllShort(boot: Entry)
    requires boot.what == BOOTED
    ensures PayloadsWithin(1, M.RecsOf(STORE, [boot] + [INTENDED] + [RECORDED]))
  {}

  // ---- an identity minted twice ----

  lemma StillOpen(s: E.State, c: E.Call)
    requires s.reg.records == [FENCE] && c == CallFor(2, 7)
    ensures E.Begun(SETUP, s, c) == s.(counters := s.counters.(evaluations := s.counters.evaluations + 1))
  {
    hide F.Revalidate;
    F.RevalidateNone(s.reg.stats, 0, GENS);
    F.RevalidateNext(s.reg, 0, 0, GENS);
    assert [FENCE][..0] == [] && [FENCE][..1] == [FENCE];
  }

  lemma OtherFits(d: Disk)
    requires d.isOpen && d.state.fences == [FENCE] && |d.journal| < 100
    ensures E.TakesFence(STORE, d, OTHER)
  {}

  lemma OtherVacant(r: F.Registry)
    requires r.records == [FENCE]
    ensures F.Vacant(RULES, r, 2, GENS) && F.Lasts(RULES, 0) && !E.Unused(r.records, 7)
    ensures F.IntentFor(RULES, E.AskOf(SETUP, CallFor(2, 7)), F.Mint(7, 1)) == OTHER.intent
  {}

  /**
   * A second subject under the identity of the first one's open fence: the invariant does not survive the evaluation.
   */
  lemma Collision()
    ensures R.LeftOpen(STORE, OPENING)
    ensures var s := E.Run(SETUP, R.Started(SETUP, OPENING), [E.Evaluating(CallFor(1, 7))]);
            && E.Good(SETUP, GENS, s) && !E.FreshCall(SETUP, s, CallFor(2, 7))
            && !E.Good(SETUP, GENS, E.Evaluate(SETUP, s, CallFor(2, 7)).0)
  {
    hide E.Evaluate, E.Opened, R.LeftOpen, E.Good, E.Begun, E.TakesFence, F.Vacant, F.Lasts, E.Unused;
    Opening();
    var s := R.Started(SETUP, OPENING);
    var none: seq<E.Op> := [];
    assert [E.Evaluating(CallFor(1, 7))][1..] == none;
    Evaluated(s.disk);
    E.OpenedGood(SETUP, s.disk, GENS);
    E.EvaluateExact(SETUP, GENS, s, CallFor(1, 7));
    var t := E.Evaluate(SETUP, s, CallFor(1, 7)).0;
    StillOpen(t, CallFor(2, 7));
    OtherFits(t.disk);
    OtherVacant(t.reg);
    E.EvaluateExact(SETUP, GENS, t, CallFor(2, 7));
  }
}
