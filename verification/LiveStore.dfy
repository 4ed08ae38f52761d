/** The store object: its commits, its checkpoint and its opening, step by step. */
module LiveStore {
  import opened Crc
  import opened Bytes
  import opened Domain
  import opened Records
  import opened Journal
  import opened Store
  import opened StoreRuns
  import opened Restart

  /** What commits make of the live state, in order. */
  function LiveAll(c: Config, s: Durable, es: seq<Entry>): Durable
    decreases |es|
  {
    if es == [] then s else Live(c, LiveAll(c, s, es[..|es| - 1]), es[|es| - 1]).0
  }

  function Appended(c: Config, es: seq<Entry>): seq<byte> {
    if es == [] then [] else Appended(c, es[..|es| - 1]) + Encode(RecOf(c, es[|es| - 1]))
  }

  lemma LiveNext(c: Config, s: Durable, es: seq<Entry>, e: Entry)
    ensures LiveAll(c, s, es + [e]) == Live(c, LiveAll(c, s, es), e).0
    ensures Appended(c, es + [e]) == Appended(c, es) + Encode(RecOf(c, e))
  {
    hide Live, Encode, RecOf;
    assert (es + [e])[..|es|] == es;
  }

  /** The store as its callers see it: the live state, the last number, the journal, and whether it is open. */
  datatype Disk = Disk(state: Durable, lastSeq: nat, journal: seq<byte>, isOpen: bool)

  /** One commit: appended durably and applied, or refused with nothing done. */
  function Commit(c: Config, d: Disk, kind: nat, what: Payload): (Disk, Outcome) {
    if !Encodable(c, what) then (d, Exhausted)
    else if !d.isOpen then (d, Invalid)
    else if |d.journal| >= c.bounds.bytes then (d, Exhausted)
    else
      var e := Entry(kind, d.lastSeq + 1, what);
      var (s, o) := Live(c, d.state, e);
      (Disk(s, d.lastSeq + 1, d.journal + Encode(RecOf(c, e)), true), o)
  }

  /** A checkpoint as the store's callers see it. */
  function Checkpointed(c: Config, d: Disk): Disk {
    if !d.isOpen || !SnapshotFits(c, Snap(Mem(d.state, d.lastSeq))) then d
    else Commit(c, d.(journal := []), CHECKPOINT, CheckpointPayload(d.lastSeq, d.state.epoch)).0
  }

  function FirstEntries(c: Config, a: Mem, boot: nat, incarnation: nat, now: int, policy: Policy,
                        restored: bool): seq<Entry> {
    var b := BootEntry(c, a, boot, incarnation, now, policy);
    if restored then [b] else [b, Entry(POLICY_COMMIT, a.lastSeq + 2, PolicyPayload(policy))]
  }

  /** What an opening appends, having recovered m: its boot, the policy unless restored, and the fences' records. */
  function OpeningEntries(c: Config, m: Mem, boot: nat, incarnation: nat, now: int, policy: Policy): seq<Entry> {
    var first := FirstEntries(c, Advance(m), boot, incarnation, now, policy,
                              m.state.fingerprint == c.fingerprint(policy));
    first + RestartEntries(m.state.fences, m.lastSeq + |first|, now)
  }

  /** The journal holds, behind j, some of these records, in order from the first. */
  ghost predicate SomeOf(c: Config, j: seq<byte>, es: seq<Entry>, journal: seq<byte>) {
    exists n: nat :: n <= |es| && journal == j + Appended(c, es[..n])
  }

  lemma SomeDone(c: Config, j: seq<byte>, done: seq<Entry>, rest: seq<Entry>, journal: seq<byte>)
    requires journal == j + Appended(c, done)
    ensures SomeOf(c, j, done + rest, journal)
  {
    hide Appended;
    assert (done + rest)[..|done|] == done;
  }

  /** Marking a fence in the table before its two records are committed leaves what the commits alone would. */
  lemma MarkingHarmless(c: Config, s: Durable, i: nat, number: nat, now: int)
    requires UniqueIds(s.fences) && i < |s.fences|
    ensures var f := s.fences[i];
            var p := Pair(f, number, now);
            var marked := s.(fences := s.fences[i := FencedByOpening(f)]);
            && Live(c, Live(c, marked, p[0]).0, p[1]) == Live(c, Live(c, s, p[0]).0, p[1])
            && Live(c, marked, p[0]).1 == Ok && Live(c, Live(c, marked, p[0]).0, p[1]).1 == Ok
            && Live(c, Live(c, s, p[0]).0, p[1]).0.fences == s.fences[i := FencedByOpening(f)]
  {
    hide InterruptionLine, FenceLine, Pushed, FindFence, UniqueIds;
    var f := s.fences[i];
    var marked := s.fences[i := FencedByOpening(f)];
    var p := Pair(f, number, now);
    MarkedUnique(s.fences, i);
    PushedFrame(c, s.(interruptions := s.interruptions + 1),
                LineageEntry(InterruptionLine(number + 1, p[0].what), true), marked);
    assert marked[i := FencedByOpening(f)] == marked;
    PushedFrame(c, Live(c, s, p[0]).0, LineageEntry(FenceLine(FENCE_REVOKE, number + 2, FencedByOpening(f)), false),
                marked);
  }

  lemma MarkedUnique(fs: seq<Fence>, i: nat)
    requires UniqueIds(fs) && i < |fs|
    ensures FindFence(fs, fs[i].intent.id) == i && FindFence(fs[i := FencedByOpening(fs[i])], fs[i].intent.id) == i
  {
    FindUnique(fs, i);
    FindUnique(fs[i := FencedByOpening(fs[i])], i);
  }

  lemma PushedFrame(c: Config, s: Durable, e: LineageEntry, fs: seq<Fence>)
    ensures Pushed(c, s.(fences := fs), e) == Pushed(c, s, e).(fences := fs)
    ensures Pushed(c, s, e).fences == s.fences
  {}

  lemma LiveTwo(c: Config, s: Durable, done: seq<Entry>, a: Entry, b: Entry)
    ensures LiveAll(c, s, done + [a, b]) == Live(c, Live(c, LiveAll(c, s, done), a).0, b).0
    ensures Appended(c, done + [a]) == Appended(c, done) + Encode(RecOf(c, a))
    ensures Appended(c, done + [a, b]) == (Appended(c, done) + Encode(RecOf(c, a))) + Encode(RecOf(c, b))
  {
    hide Live, Encode, RecOf, LiveAll, Appended;
    LiveNext(c, s, done, a);
    LiveNext(c, s, done + [a], b);
    assert (done + [a]) + [b] == done + [a, b];
  }

  lemma ApplyUnique(c: Config, m: Mem, r: Rec)
    requires UniqueIds(m.state.fences)
    ensures UniqueIds(Apply(c, m, r).0.state.fences)
  {
    hide UniqueIds, PutFence, Room, FenceLine, DecisionLine, InterruptionLine;
    var p := c.dec(r.kind, r.payload);
    if p.Some? && p.value.FencePayload? {
      PutUnique(m.state.fences, p.value.fence);
    }
  }

  /** Replay keeps the table free of two entries for one fence. */
  lemma {:induction false} ScanUnique(c: Config, snapshotSeq: nat, d: seq<byte>, expected: nat, acc: Scan<Mem>)
    requires UniqueIds(acc.state.state.fences)
    ensures UniqueIds(ScanFrom(c.bounds, Visitor(c, snapshotSeq), d, expected, acc).state.state.fences)
    decreases |d|
  {
    hide Look, UniqueIds, Apply;
    var turn := Look(c.bounds.payload, d, expected);
    var visit := Visitor(c, snapshotSeq);
    if turn.Next? && |acc.records| < c.bounds.records && visit(acc.state, turn.record).1 == Ok {
      ApplyUnique(c, acc.state, turn.record);
      ScanUnique(c, snapshotSeq, turn.rest, turn.record.number + 1,
                 acc.(state := visit(acc.state, turn.record).0, records := acc.records + [turn.record],
                      valid := acc.valid + |d| - |turn.rest|));
    }
  }

  lemma VisitRefuses(c: Config, snapshotSeq: nat, m: Mem, r: Rec)
    ensures Visitor(c, snapshotSeq)(m, r).1 != Ok ==> Visitor(c, snapshotSeq)(m, r).0 == m
  {}

  class LiveStore {
    const config: Config
    const policy: Policy
    var snapshot: Option<Durable>
    var journal: seq<byte>
    var journalBytes: nat
    var state: Durable
    var lastSeq: nat
    var isOpen: bool
    var fenced: nat

    constructor (config: Config, policy: Policy, snapshot: Option<Durable>, journal: seq<byte>)
      ensures this.config == config && this.policy == policy && this.snapshot == snapshot && this.journal == journal
      ensures !isOpen && state == Blank()
    {
      this.config, this.policy, this.snapshot, this.journal := config, policy, snapshot, journal;
      journalBytes, state, lastSeq, isOpen, fenced := 0, Blank(), 0, false, 0;
    }

    ghost predicate Valid()
      reads this
    {
      isOpen ==> journalBytes == |journal|
    }

    /** Whether a commit would be appended. */
    predicate Writable(what: Payload)
      reads this
    {
      Encodable(config, what) && isOpen && journalBytes < config.bounds.bytes
    }

    method PushLineage(e: LineageEntry)
      modifies this`state
      ensures state == Pushed(config, old(state), e)
    {
      state := state.(seen := state.seen + 1);
      if |state.lineage| >= config.maxLineage {
        state := state.(lineage := (if state.lineage == [] then [] else state.lineage[1..]),
                        dropped := state.dropped + 1);
      }
      state := state.(lineage := state.lineage + [e]);
    }

    /** One payload encoded into its writer and appended as a record. */
    method AppendCommit(kind: nat, what: Payload) returns (o: Outcome, number: nat)
      requires Valid()
      modifies this`journal, this`journalBytes, this`lastSeq
      ensures Valid()
      ensures o == Ok <==> old(Writable(what))
      ensures o == Ok ==> number == old(lastSeq) + 1 == lastSeq
                          && journal == old(journal) + Encode(RecOf(config, Entry(kind, number, what)))
      ensures o != Ok ==> journal == old(journal) && lastSeq == old(lastSeq)
                          && o == if isOpen || !Encodable(config, what) then Exhausted else Invalid
    {
      hide Encode, RecOf, Encodable;
      number := lastSeq + 1;
      if !Encodable(config, what) {
        return Exhausted, number;
      }
      if !isOpen {
        return Invalid, number;
      }
      if journalBytes >= config.bounds.bytes {
        return Exhausted, number;
      }
      var bytes := Encode(RecOf(config, Entry(kind, number, what)));
      journal := journal + bytes;
      journalBytes := journalBytes + |bytes|;
      lastSeq := number;
      return Ok, number;
    }

    function Contents(): Disk
      reads this
    {
      Disk(state, lastSeq, journal, isOpen)
    }

    /** What a commit of one record has done. */
    twostate predicate CommittedOne(kind: nat, what: Payload, o: Outcome)
      reads this
    {
      (Contents(), o) == Commit(config, old(Contents()), kind, what)
    }

    method CommitPolicy(p: Policy) returns (o: Outcome)
      requires Valid()
      modifies this`journal, this`journalBytes, this`lastSeq, this`state
      ensures Valid() && CommittedOne(POLICY_COMMIT, PolicyPayload(p), o)
    {
      hide Encode, RecOf;
      var n;
      o, n := AppendCommit(POLICY_COMMIT, PolicyPayload(p));
      if o == Ok {
        state := state.(policy := p.version);
        state := state.(fingerprint := config.fingerprint(p));
      }
    }

    method CommitDecision(d: Decision) returns (o: Outcome)
      requires Valid()
      modifies this`journal, this`journalBytes, this`lastSeq, this`state
      ensures Valid() && CommittedOne(DECISION_COMMIT, DecisionPayload(d), o)
    {
      hide Encode, RecOf, DecisionLine;
      var n;
      o, n := AppendCommit(DECISION_COMMIT, DecisionPayload(d));
      if o == Ok {
        state := state.(decisions := state.decisions + 1);
        PushLineage(LineageEntry(DecisionLine(DECISION_COMMIT, n, d), false));
      }
    }

    /** The table slot of a fence, searched from the front. */
    method FindSlot(id: nat) returns (i: nat)
      ensures i == FindFence(state.fences, id)
    {
      i := 0;
      while i < |state.fences|
        invariant i <= |state.fences| && forall j :: 0 <= j < i ==> state.fences[j].intent.id != id
      {
        if state.fences[i].intent.id == id {
          return;
        }
        i := i + 1;
      }
    }

    method CommitFenceState(kind: nat, f: Fence) returns (o: Outcome)
      requires Valid()
      modifies this`journal, this`journalBytes, this`lastSeq, this`state
      ensures Valid() && CommittedOne(kind, FencePayload(f), o)
    {
      hide Encode, RecOf, FenceLine, Pushed;
      var n;
      o, n := AppendCommit(kind, FencePayload(f));
      if o != Ok {
        return;
      }
      var i := FindSlot(f.intent.id);
      if i == |state.fences| {
        if |state.fences| >= config.maxFences {
          return Exhausted;
        }
        state := state.(fences := state.fences + [f]);
        if kind == FENCE_INTENT {
          state := state.(fencesTotal := state.fencesTotal + 1);
        }
      } else {
        state := state.(fences := state.fences[i := f]);
      }
      PushLineage(LineageEntry(FenceLine(kind, n, f), false));
    }

    method CommitInterruption(p: Payload) returns (o: Outcome)
      requires Valid() && p.InterruptionPayload?
      modifies this`journal, this`journalBytes, this`lastSeq, this`state
      ensures Valid() && CommittedOne(INTERRUPTION_COMMIT, p, o)
    {
      hide Encode, RecOf, InterruptionLine, Pushed;
      var n;
      o, n := AppendCommit(INTERRUPTION_COMMIT, p);
      if o == Ok {
        state := state.(interruptions := state.interruptions + 1);
        PushLineage(LineageEntry(InterruptionLine(n, p), true));
      }
    }

    /** The snapshot takes the whole live state; the journal starts again with a checkpoint record. */
    method Checkpoint() returns (o: Outcome)
      requires Valid()
      modifies this`snapshot, this`journal, this`journalBytes, this`lastSeq
      ensures Valid() && Contents() == Checkpointed(config, old(Contents()))
      ensures !isOpen ==> o == Invalid && snapshot == old(snapshot) && journal == old(journal)
                          && lastSeq == old(lastSeq)
      ensures isOpen && !SnapshotFits(config, Snap(Mem(state, old(lastSeq)))) ==>
                o == Exhausted && snapshot == old(snapshot) && journal == old(journal) && lastSeq == old(lastSeq)
      ensures isOpen && SnapshotFits(config, Snap(Mem(state, old(lastSeq))))
              ==> snapshot == Some(Snap(Mem(state, old(lastSeq))))
      ensures isOpen && o == Ok ==>
                && lastSeq == old(lastSeq) + 1
                && journal == Encode(RecOf(config,
                                           Entry(CHECKPOINT, lastSeq, CheckpointPayload(old(lastSeq), state.epoch))))
      ensures isOpen && SnapshotFits(config, Snap(Mem(state, old(lastSeq)))) && o != Ok ==>
                && journal == [] && lastSeq == old(lastSeq)
                && (config.bounds.bytes == 0 || !Encodable(config, CheckpointPayload(lastSeq, state.epoch)))
    {
      hide Encode, RecOf;
      if !isOpen {
        return Invalid;
      }
      var snap := state.(snapshotSeq := lastSeq);
      if config.size(snap) > config.maxSnapshot {
        return Exhausted;
      }
      snapshot := Some(snap);
      journal := [];
      journalBytes := 0;
      lastSeq := snap.snapshotSeq;
      var n;
      o, n := AppendCommit(CHECKPOINT, CheckpointPayload(snap.snapshotSeq, state.epoch));
    }

    /** Replay of one record, as the scan visits it. */
    method ApplyRecord(r: Rec) returns (o: Outcome)
      modifies this`state, this`lastSeq
      ensures (Mem(state, lastSeq), o) == Apply(config, old(Mem(state, lastSeq)), r)
    {
      hide DecisionLine, FenceLine, InterruptionLine, Pushed;
      var p := config.dec(r.kind, r.payload);
      if p.None? {
        return Malformed;
      }
      match p.value {
        case BootPayload(boot, incarnation, epoch, _, bootCount, openCount, version, _) =>
          if epoch <= state.epoch && state.epoch != 0 {
            return Corrupt;
          }
          state := state.(epoch := epoch, bootCount := bootCount, openCount := openCount);
          state := state.(policy := version, lastBoot := boot, lastIncarnation := incarnation);
        case PolicyPayload(rules) =>
          state := state.(policy := rules.version, fingerprint := config.fingerprint(rules));
        case CheckpointPayload(snapshotSeq, _) =>
          if snapshotSeq > r.number {
            return Corrupt;
          }
        case DecisionPayload(d) =>
          PushLineage(LineageEntry(DecisionLine(r.kind, r.number, d), false));
          if r.kind == DECISION_COMMIT {
            state := state.(decisions := state.decisions + 1);
          }
        case FencePayload(f) =>
          var i := FindSlot(f.intent.id);
          if i == |state.fences| {
            if |state.fences| >= config.maxFences {
              return Exhausted;
            }
            state := state.(fences := state.fences + [f]);
          } else {
            state := state.(fences := state.fences[i := f]);
          }
          if r.kind == FENCE_INTENT {
            state := state.(fencesTotal := state.fencesTotal + 1);
          }
          PushLineage(LineageEntry(FenceLine(r.kind, r.number, f), false));
        case InterruptionPayload(_, _, _, _, _, _, _, _) =>
          state := state.(interruptions := state.interruptions + 1);
          PushLineage(LineageEntry(InterruptionLine(r.number, p.value), true));
        case EpochPayload(advanced) =>
          if advanced <= state.epoch {
            return Corrupt;
          }
          state := state.(epoch := advanced);
      }
      lastSeq := r.number;
      return Ok;
    }

    /** One fence of an earlier life: marked in the table, interrupted, then revoked. */
    method FenceOne(i: nat, now: int) returns (o: Outcome)
      requires Valid() && isOpen && UniqueIds(state.fences) && i < |state.fences|
      modifies this`journal, this`journalBytes, this`lastSeq, this`state
      ensures Valid() && (o == Ok || o == Exhausted)
      ensures var p := Pair(old(state.fences[i]), old(lastSeq), now);
              var j := old(journal);
              && |p| == 2
              && (o == Ok ==> journal == (j + Encode(RecOf(config, p[0]))) + Encode(RecOf(config, p[1]))
                              && lastSeq == old(lastSeq) + 2
                              && state == Live(config, Live(config, old(state), p[0]).0, p[1]).0
                              && state.fences == old(state.fences)[i := FencedByOpening(old(state.fences[i]))])
              && (o != Ok ==> journal == j || journal == j + Encode(RecOf(config, p[0])))
    {
      hide UniqueIds, Pair, FencedByOpening, InterruptionOf, Live, Encode, RecOf;
      var f := state.fences[i];
      PairIs(f, lastSeq, now);
      MarkingHarmless(config, state, i, lastSeq, now);
      var marked := FencedByOpening(f);
      state := state.(fences := state.fences[i := marked]);
      o := CommitInterruption(InterruptionOf(f, now));
      if o == Ok {
        o := CommitFenceState(FENCE_REVOKE, marked);
      }
    }

    /** Fences every open fence of earlier lives, in table order. */
    method FencePrior(now: int) returns (o: Outcome)
      requires Valid() && isOpen && UniqueIds(state.fences)
      modifies this`journal, this`journalBytes, this`lastSeq, this`state, this`fenced
      ensures Valid()
      ensures var es := RestartEntries(old(state.fences), old(lastSeq), now);
              && SomeOf(config, old(journal), es, journal)
              && (o == Ok ==>
                    && journal == old(journal) + Appended(config, es) && lastSeq == old(lastSeq) + |es|
                    && state == LiveAll(config, old(state), es)
                    && fenced == |OpenFences(old(state.fences))|)
      ensures o == Ok || o == Exhausted
    {
      hide UniqueIds, Pair, FencedByOpening, InterruptionOf, Live, LiveAll, Appended, Encode, RecOf, SomeOf;
      hide RestartEntries, OpenFences, FencedUpTo;
      ghost var was, m, j := state.fences, Mem(state, lastSeq), journal;
      ghost var done: seq<Entry> := [];
      FencedNone(config, m, now);
      fenced := 0;
      var i := 0;
      while i < |state.fences|
        invariant isOpen && Valid() && FencedUpTo(config, m, Mem(state, lastSeq), i, done, now)
        invariant |state.fences| == |was| && i <= |was| && journal == j + Appended(config, done)
        invariant fenced + |OpenFences(was[i..])| == |OpenFences(was)|
        decreases |was| - i
      {
        FencedAt(config, m, Mem(state, lastSeq), i, done, now);
        var f := state.fences[i];
        if OpenLife(f.life) {
          ghost var p := Pair(f, lastSeq, now);
          ghost var before := Mem(state, lastSeq);
          PairIs(f, lastSeq, now);
          o := FenceOne(i, now);
          FencedMore(config, m, before, i, done, now, j);
          if o != Ok {
            SomeOfPair(config, j, done, p, RestartEntries(was[i + 1..], before.lastSeq + 2, now), journal);
            return;
          }
          fenced := fenced + 1;
          done := done + p;
        } else {
          FencedSkip(config, m, Mem(state, lastSeq), i, done, now);
        }
        i := i + 1;
      }
      FencedEnd(config, m, Mem(state, lastSeq), done, now);
      AllOf(config, j, done, journal);
      return Ok;
    }

    /** Reads the files back into the state; a torn tail is cut off. */
    method ReadBack() returns (o: Outcome)
      requires Valid() && !isOpen && state == Blank() && (snapshot.Some? ==> UniqueIds(snapshot.value.fences))
      modifies this`journal, this`lastSeq, this`state
      ensures match Recover(config, snapshot, old(journal))
              case Refusal(why) => o == why && o != Ok && journal == old(journal)
              case Recovered(m, j) => o == Ok && Mem(state, lastSeq) == m && journal == j && UniqueIds(m.state.fences)
    {
      hide UniqueIds, ScanFrom, Visitor;
      if snapshot.Some? {
        if config.size(snapshot.value) > config.maxSnapshot {
          return Oversized;
        }
        state := snapshot.value;
        if |state.lineage| > config.maxLineage {
          return Oversized;
        }
      } else {
        NoFences();
      }
      lastSeq := state.snapshotSeq;
      ScanUnique(config, state.snapshotSeq, journal, state.snapshotSeq + 1, Start(Mem(state, lastSeq)));
      JournalWithin(config.bounds, Visitor(config, state.snapshotSeq), journal, state.snapshotSeq + 1,
                    Mem(state, lastSeq));
      var scan := Replay();
      if scan.outcome != Ok {
        return scan.outcome;
      }
      if scan.torn {
        journal := journal[..scan.valid];
      }
      return Ok;
    }

    /** One record read from the journal: skipped if the snapshot holds it already. */
    method Visit(snapshotSeq: nat, r: Rec) returns (o: Outcome)
      modifies this`state, this`lastSeq
      ensures (Mem(state, lastSeq), o) == Visitor(config, snapshotSeq)(old(Mem(state, lastSeq)), r)
    {
      hide Apply;
      if r.number <= snapshotSeq {
        return Ok;
      }
      o := ApplyRecord(r);
    }

    /** The scan of the journal, each record behind the snapshot replayed into the state as it is read. */
    method Replay() returns (report: Scan<Mem>)
      requires lastSeq == state.snapshotSeq
      modifies this`state, this`lastSeq
      ensures var m := old(Mem(state, lastSeq));
              report == ScanJournal(config.bounds, Visitor(config, m.lastSeq), journal, m.lastSeq + 1, m)
      ensures Mem(state, lastSeq) == report.state
    {
      hide Look, Visitor, ScanFrom;
      var b, snapshotSeq := config.bounds, state.snapshotSeq;
      ghost var whole := ScanJournal(b, Visitor(config, snapshotSeq), journal, snapshotSeq + 1, Mem(state, lastSeq));
      report := Start(Mem(state, lastSeq));
      if |journal| > b.bytes {
        report := report.(outcome := Oversized);
        return;
      }
      var pos, expected := 0, FirstNumber(snapshotSeq + 1);
      while true
        invariant 0 <= pos <= |journal| && report.valid == pos && report.state == Mem(state, lastSeq)
        invariant ScanFrom(b, Visitor(config, snapshotSeq), journal[pos..], expected, report) == whole
        decreases |journal| - pos
      {
        ScanTurn(b, Visitor(config, snapshotSeq), journal, pos, expected, report);
        var turn := Look(b.payload, journal[pos..], expected);
        match turn {
          case Clean =>
            return;
          case Torn =>
            report := report.(torn := true, tail := |journal| - pos);
            return;
          case Zeroed =>
            report := report.(zeroed := true, tail := |journal| - pos);
            return;
          case Refused(why) =>
            report := report.(outcome := why);
            return;
          case Next(r, rest) =>
            if |report.records| >= b.records {
              report := report.(outcome := Exhausted);
              return;
            }
            var o := Visit(snapshotSeq, r);
            if o != Ok {
              VisitRefuses(config, snapshotSeq, report.state, r);
              report := report.(outcome := o);
              return;
            }
            pos := |journal| - |rest|;
            report := report.(state := Mem(state, lastSeq), records := report.records + [r], valid := pos);
            expected := r.number + 1;
        }
      }
    }

    /** Every lineage entry becomes an earlier incarnation's. */
    method Inherit()
      modifies this`state
      ensures state == old(state).(lineage := Inherited(old(state.lineage)))
    {
      var i := 0;
      while i < |state.lineage|
        invariant 0 <= i <= |state.lineage| == |old(state.lineage)|
        invariant state == old(state).(lineage := state.lineage)
        invariant forall j :: 0 <= j < |state.lineage| ==>
                    state.lineage[j] ==
                    old(state.lineage)[j].(prior := if j < i then true else old(state.lineage)[j].prior)
      {
        state := state.(lineage := state.lineage[i := state.lineage[i].(prior := true)]);
        i := i + 1;
      }
      assert state.lineage == Inherited(old(state.lineage));
    }

    /** The boot record, then the policy unless it is the restored one. */
    method Announce(boot: nat, incarnation: nat, now: int, restored: bool) returns (o: Outcome)
      requires Valid() && isOpen
      modifies this`journal, this`journalBytes, this`lastSeq, this`state
      ensures Valid() && (o == Ok || o == Exhausted)
      ensures var first := FirstEntries(config, old(Mem(state, lastSeq)), boot, incarnation, now, policy, restored);
              && SomeOf(config, old(journal), first, journal)
              && (o == Ok ==>
                    && journal == old(journal) + Appended(config, first) && lastSeq == old(lastSeq) + |first|
                    && state == LiveAll(config, old(state), first) && state.fences == old(state.fences))
    {
      hide Live, LiveAll, Appended, Encode, RecOf, SomeOf;
      ghost var s0, j0 := state, journal;
      ghost var b := BootEntry(config, Mem(state, lastSeq), boot, incarnation, now, policy);
      ghost var p := Entry(POLICY_COMMIT, lastSeq + 2, PolicyPayload(policy));
      FirstLive(config, s0, j0, b, p, policy);
      var n;
      o, n := AppendCommit(BOOT, BootPayload(boot, incarnation, state.epoch, now, state.bootCount, state.openCount,
                                             policy.version, config.fingerprint(policy)));
      if o == Ok && !restored {
        o := CommitPolicy(policy);
        if o == Ok {
          state := state.(policy := policy.version, fingerprint := config.fingerprint(policy));
        }
      }
    }

    /**
     * Opening: the files read back, the torn tail cut off, the incarnation boundary advanced, then the boot record,
     * the policy unless it is the restored one, and two records for each fence found open.
     */
    method Open(boot: nat, incarnation: nat, now: int) returns (o: Outcome)
      requires Valid() && (isOpen || state == Blank()) && (snapshot.Some? ==> UniqueIds(snapshot.value.fences))
      modifies this`journal, this`journalBytes, this`lastSeq, this`state, this`fenced, this`isOpen
      ensures Valid()
      ensures old(isOpen) ==> o == Invalid && journal == old(journal) && state == old(state) && lastSeq == old(lastSeq)
      ensures !old(isOpen) ==>
        match Recover(config, snapshot, old(journal))
        case Refusal(why) => o == why && journal == old(journal) && !isOpen
        case Recovered(m, j) =>
          if boot == 0 || incarnation == 0 then o == Unavailable && journal == j && !isOpen
          else
            var es := OpeningEntries(config, m, boot, incarnation, now, policy);
            && isOpen && (o == Ok || o == Exhausted) && SomeOf(config, j, es, journal)
            && (o == Ok ==>
                  && journal == j + Appended(config, es) && lastSeq == m.lastSeq + |es|
                  && state == LiveAll(config, Advance(m).state, es)
                  && fenced == |OpenFences(m.state.fences)|)
    {
      hide Recover, UniqueIds, LiveAll, Appended, SomeOf, OpenFences, FirstEntries, RestartEntries, Inherited;
      if isOpen {
        return Invalid;
      }
      o := ReadBack();
      if o != Ok {
        return;
      }
      var restored := state.fingerprint == config.fingerprint(policy);
      state := state.(bootCount := state.bootCount + 1);
      state := state.(openCount := state.openCount + 1);
      state := state.(epoch := state.epoch + 1);
      if boot == 0 || incarnation == 0 {
        return Unavailable;
      }
      Inherit();
      journalBytes := |journal|;
      isOpen := true;
      ghost var a, j := Mem(state, lastSeq), journal;
      o := Announce(boot, incarnation, now, restored);
      ghost var first := FirstEntries(config, a, boot, incarnation, now, policy, restored);
      ghost var rest := RestartEntries(a.state.fences, a.lastSeq + |first|, now);
      LiveAllAppend(config, a.state, first, rest);
      if o != Ok {
        SomeOfFirst(config, j, first, rest, journal);
        return;
      }
      o := FencePrior(now);
      SomeBehind(config, j, first, rest, journal);
    }
  }

  /** The loop over the table after i slots: the records so far, the state they leave, and the records to come. */
  ghost predicate FencedUpTo(c: Config, from: Mem, m: Mem, i: nat, done: seq<Entry>, now: int) {
    var was := from.state.fences;
    && i <= |was| && m.lastSeq == from.lastSeq + |done| && UniqueIds(was)
    && m.state == LiveAll(c, from.state, done) && m.state.fences == SettledAll(was[..i]) + was[i..]
    && RestartEntries(was, from.lastSeq, now) == done + RestartEntries(was[i..], m.lastSeq, now)
  }

  lemma FencedNone(c: Config, m: Mem, now: int)
    requires UniqueIds(m.state.fences)
    ensures FencedUpTo(c, m, m, 0, [], now) && Appended(c, []) == [] && m.state.fences[0..] == m.state.fences
  {
    hide UniqueIds, RestartEntries;
    assert m.state.fences == SettledAll(m.state.fences[..0]) + m.state.fences[0..];
    assert m.state.fences[0..] == m.state.fences;
    assert RestartEntries(m.state.fences, m.lastSeq, now) == [] + RestartEntries(m.state.fences, m.lastSeq, now);
  }

  lemma FencedAt(c: Config, from: Mem, m: Mem, i: nat, done: seq<Entry>, now: int)
    requires FencedUpTo(c, from, m, i, done, now) && i < |from.state.fences|
    ensures var was := from.state.fences;
            && |m.state.fences| == |was| && m.state.fences[i] == was[i] && UniqueIds(m.state.fences)
            && |OpenFences(was[i..])| == (if OpenLife(was[i].life) then 1 else 0) + |OpenFences(was[i + 1..])|
  {
    hide LiveAll, RestartEntries, UniqueIds, OpenFences, Settled;
    SettledStep(from.state.fences, m.state.fences, i);
    RestartStep(from.state.fences, i, m.lastSeq, now);
  }

  lemma FencedSkip(c: Config, from: Mem, m: Mem, i: nat, done: seq<Entry>, now: int)
    requires FencedUpTo(c, from, m, i, done, now) && i < |from.state.fences| && !OpenLife(from.state.fences[i].life)
    ensures FencedUpTo(c, from, m, i + 1, done, now)
  {
    hide LiveAll, RestartEntries, UniqueIds, OpenFences, SettledAll;
    var was := from.state.fences;
    SettledStep(was, m.state.fences, i);
    RestartStep(was, i, m.lastSeq, now);
    assert m.state.fences[i := was[i]] == m.state.fences;
  }

  /** Two more records, for the open fence in slot i. */
  lemma FencedMore(c: Config, from: Mem, m: Mem, i: nat, done: seq<Entry>, now: int, j: seq<byte>)
    requires FencedUpTo(c, from, m, i, done, now) && i < |from.state.fences| && OpenLife(from.state.fences[i].life)
    ensures var was := from.state.fences;
            var p := Pair(was[i], m.lastSeq, now);
            && |p| == 2
            && FencedUpTo(c, from, Mem(Live(c, Live(c, m.state, p[0]).0, p[1]).0, m.lastSeq + 2), i + 1, done + p, now)
            && j + Appended(c, done + [p[0]]) == (j + Appended(c, done)) + Encode(RecOf(c, p[0]))
            && j + Appended(c, done + p) == ((j + Appended(c, done)) + Encode(RecOf(c, p[0]))) + Encode(RecOf(c, p[1]))
            && RestartEntries(was, from.lastSeq, now) == done + (p + RestartEntries(was[i + 1..], m.lastSeq + 2, now))
  {
    hide LiveAll, RestartEntries, UniqueIds, OpenFences, SettledAll, Live, Appended, Encode, RecOf, Pair;
    hide FencedByOpening;
    var was := from.state.fences;
    var p := Pair(was[i], m.lastSeq, now);
    PairIs(was[i], m.lastSeq, now);
    SettledStep(was, m.state.fences, i);
    RestartStep(was, i, m.lastSeq, now);
    MarkingHarmless(c, m.state, i, m.lastSeq, now);
    TwoMore(c, from.state, done, p, j);
    assert (done + p) + RestartEntries(was[i + 1..], m.lastSeq + 2, now) ==
           done + (p + RestartEntries(was[i + 1..], m.lastSeq + 2, now));
  }

  lemma TwoMore(c: Config, s: Durable, done: seq<Entry>, p: seq<Entry>, j: seq<byte>)
    requires |p| == 2
    ensures LiveAll(c, s, done + p) == Live(c, Live(c, LiveAll(c, s, done), p[0]).0, p[1]).0
    ensures j + Appended(c, done + [p[0]]) == (j + Appended(c, done)) + Encode(RecOf(c, p[0]))
    ensures j + Appended(c, done + p) == ((j + Appended(c, done)) + Encode(RecOf(c, p[0]))) + Encode(RecOf(c, p[1]))
  {
    hide LiveAll, Live, Appended, Encode, RecOf;
    LiveTwo(c, s, done, p[0], p[1]);
    Grown(j, Appended(c, done), Encode(RecOf(c, p[0])), Encode(RecOf(c, p[1])));
    assert done + [p[0], p[1]] == done + p;
  }

  lemma FencedEnd(c: Config, from: Mem, m: Mem, done: seq<Entry>, now: int)
    requires FencedUpTo(c, from, m, |from.state.fences|, done, now)
    ensures RestartEntries(from.state.fences, from.lastSeq, now) == done && m.lastSeq == from.lastSeq + |done|
    ensures m.state == LiveAll(c, from.state, done) && OpenFences(from.state.fences[|from.state.fences|..]) == []
  {
    hide LiveAll, UniqueIds, SettledAll;
    NoneLeft(from.state.fences, m.lastSeq, now);
    assert done + [] == done;
  }

  lemma AllOf(c: Config, j: seq<byte>, es: seq<Entry>, journal: seq<byte>)
    requires journal == j + Appended(c, es)
    ensures SomeOf(c, j, es, journal)
  {
    hide Appended;
    assert es[..|es|] == es;
  }

  lemma RestartStep(was: seq<Fence>, i: nat, number: nat, now: int)
    requires i < |was|
    ensures RestartEntries(was[i..], number, now) ==
            (if OpenLife(was[i].life) then Pair(was[i], number, now) + RestartEntries(was[i + 1..], number + 2, now)
             else RestartEntries(was[i + 1..], number, now))
    ensures |OpenFences(was[i..])| == (if OpenLife(was[i].life) then 1 else 0) + |OpenFences(was[i + 1..])|
  {
    assert was[i..][0] == was[i] && was[i..][1..] == was[i + 1..];
  }

  lemma NoneLeft(was: seq<Fence>, number: nat, now: int)
    ensures RestartEntries(was[|was|..], number, now) == [] && OpenFences(was[|was|..]) == []
  {}

  lemma Grown(j: seq<byte>, done: seq<byte>, a: seq<byte>, b: seq<byte>)
    ensures j + (done + a) == (j + done) + a && j + ((done + a) + b) == ((j + done) + a) + b
  {}

  lemma SomeOfPair(c: Config, j: seq<byte>, done: seq<Entry>, p: seq<Entry>, rest: seq<Entry>, journal: seq<byte>)
    requires |p| == 2
    requires journal == j + Appended(c, done) || journal == j + Appended(c, done + [p[0]])
    ensures SomeOf(c, j, done + (p + rest), journal)
  {
    hide Appended, SomeOf;
    if journal == j + Appended(c, done) {
      SomeDone(c, j, done, p + rest, journal);
    } else {
      SomeDone(c, j, done + [p[0]], [p[1]] + rest, journal);
      assert (done + [p[0]]) + ([p[1]] + rest) == done + (p + rest);
    }
  }

  lemma PairIs(f: Fence, number: nat, now: int)
    ensures var p := Pair(f, number, now);
            && p == [p[0], p[1]] && |p| == 2 && InterruptionOf(f, now).InterruptionPayload?
            && p[0] == Entry(INTERRUPTION_COMMIT, number + 1, InterruptionOf(f, now))
            && p[1] == Entry(FENCE_REVOKE, number + 2, FencePayload(FencedByOpening(f)))
            && (OpenLife(f.life) ==> Settled(f) == FencedByOpening(f))
  {}

  lemma FirstLive(c: Config, s: Durable, j: seq<byte>, b: Entry, p: Entry, policy: Policy)
    requires b.what.BootPayload? && p.what == PolicyPayload(policy)
    ensures var t := s.(policy := policy.version, fingerprint := c.fingerprint(policy));
            && LiveAll(c, s, [b]) == s && LiveAll(c, s, [b, p]) == t && Live(c, s, p) == (t, Ok)
    ensures j + Appended(c, [b]) == j + Encode(RecOf(c, b))
    ensures j + Appended(c, [b, p]) == (j + Encode(RecOf(c, b))) + Encode(RecOf(c, p))
    ensures SomeOf(c, j, [b], j) && SomeOf(c, j, [b], j + Encode(RecOf(c, b)))
    ensures SomeOf(c, j, [b, p], j) && SomeOf(c, j, [b, p], j + Encode(RecOf(c, b)))
    ensures SomeOf(c, j, [b, p], (j + Encode(RecOf(c, b))) + Encode(RecOf(c, p)))
  {
    hide Encode, RecOf, SomeOf;
    assert [b][..0] == [] && [b, p][..1] == [b];
    assert [] + Encode(RecOf(c, b)) == Encode(RecOf(c, b));
    assert j == j + Appended(c, []);
    Grown(j, [], Encode(RecOf(c, b)), Encode(RecOf(c, p)));
    SomeDone(c, j, [], [b], j);
    SomeDone(c, j, [b], [], j + Encode(RecOf(c, b)));
    SomeDone(c, j, [], [b, p], j);
    SomeDone(c, j, [b], [p], j + Encode(RecOf(c, b)));
    SomeDone(c, j, [b, p], [], (j + Encode(RecOf(c, b))) + Encode(RecOf(c, p)));
    assert [] + [b] == [b] == [b] + [] && [] + [b, p] == [b, p] == [b] + [p] == [b, p] + [];
  }

  lemma SomeOfFirst(c: Config, j: seq<byte>, first: seq<Entry>, rest: seq<Entry>, journal: seq<byte>)
    requires SomeOf(c, j, first, journal)
    ensures SomeOf(c, j, first + rest, journal)
  {
    hide Appended;
    var n: nat :| n <= |first| && journal == j + Appended(c, first[..n]);
    assert (first + rest)[..n] == first[..n];
  }

  lemma {:induction false} LiveAllAppend(c: Config, s: Durable, a: seq<Entry>, b: seq<Entry>)
    ensures LiveAll(c, s, a + b) == LiveAll(c, LiveAll(c, s, a), b)
    ensures Appended(c, a + b) == Appended(c, a) + Appended(c, b)
    decreases |b|
  {
    hide Live, Encode, RecOf;
    if b == [] {
      assert a + b == a;
    } else {
      var front := b[..|b| - 1];
      LiveAllAppend(c, s, a, front);
      assert (a + b)[..|a + b| - 1] == a + front;
    }
  }

  lemma SomeBehind(c: Config, j: seq<byte>, a: seq<Entry>, b: seq<Entry>, journal: seq<byte>)
    requires SomeOf(c, j + Appended(c, a), b, journal)
    ensures SomeOf(c, j, a + b, journal)
  {
    hide Appended, LiveAll;
    var n: nat :| n <= |b| && journal == (j + Appended(c, a)) + Appended(c, b[..n]);
    LiveAllAppend(c, Blank(), a, b[..n]);
    Reassociate(j, Appended(c, a), Appended(c, b[..n]));
    assert (a + b)[..|a| + n] == a + b[..n];
  }

  lemma Reassociate(a: seq<byte>, b: seq<byte>, d: seq<byte>)
    ensures (a + b) + d == a + (b + d)
  {}

  // ---- what an opening leaves ----

  predicate NoBoot(es: seq<Entry>) {
    forall i :: 0 <= i < |es| ==> !es[i].what.BootPayload? && !es[i].what.DecisionPayload?
  }

  /** Commits, in order, do what their records mean. */
  lemma {:induction false} LiveMeans(c: Config, s: Durable, es: seq<Entry>)
    requires c.maxLineage > 0 && |s.lineage| <= c.maxLineage && NoBoot(es)
    ensures CoreOf(LiveAll(c, s, es)) == MeansAll(c, CoreOf(s), es) && |LiveAll(c, s, es).lineage| <= c.maxLineage
    decreases |es|
  {
    hide Live, Means, CoreOf;
    if es != [] {
      var front, e := es[..|es| - 1], es[|es| - 1];
      LiveMeans(c, s, front);
      LiveSteps(c, LiveAll(c, s, front), e);
      MeansLast(c, CoreOf(s), front, e);
      assert front + [e] == es;
    }
  }

  lemma MeansLast(c: Config, k: Core, es: seq<Entry>, e: Entry)
    ensures MeansAll(c, k, es + [e]) == Means(c, MeansAll(c, k, es), e)
  {
    hide Means;
    MeansAllAppend(c, k, es, [e]);
    assert [e][1..] == [];
    assert forall k0 :: MeansAll(c, k0, [e]) == MeansAll(c, Means(c, k0, e), []);
  }

  lemma {:induction false} RestartNoBoot(fs: seq<Fence>, number: nat, now: int)
    ensures NoBoot(RestartEntries(fs, number, now))
  {
    if fs != [] {
      if OpenLife(fs[0].life) {
        RestartNoBoot(fs[1..], number + 2, now);
      } else {
        RestartNoBoot(fs[1..], number, now);
      }
    }
  }

  lemma AdvanceLength(m: Mem)
    ensures |Advance(m).state.lineage| == |m.state.lineage| && Advance(m).state.fences == m.state.fences
    ensures Advance(m).state.epoch == m.state.epoch + 1 && Advance(m).state.interruptions == m.state.interruptions
  {}

  lemma MeansOne(c: Config, k: Core, e: Entry)
    ensures MeansAll(c, k, [e]) == Means(c, k, e)
  {
    hide Means;
    assert [e][1..] == [];
    assert MeansAll(c, Means(c, k, e), []) == Means(c, k, e);
  }

  lemma PolicyMeans(c: Config, s: Durable, e: Entry, policy: Policy)
    requires e.what == PolicyPayload(policy)
    ensures CoreOf(s.(policy := policy.version, fingerprint := c.fingerprint(policy))) == Means(c, CoreOf(s), e)
  {}

  lemma FirstMeans(c: Config, m: Mem, boot: nat, incarnation: nat, now: int, policy: Policy, restored: bool)
    ensures var first := FirstEntries(c, Advance(m), boot, incarnation, now, policy, restored);
            var s := LiveAll(c, Advance(m).state, first);
            && CoreOf(s) == MeansAll(c, CoreOf(m.state), first) && |s.lineage| == |m.state.lineage|
            && s.fences == m.state.fences && s.epoch == m.state.epoch + 1 && s.interruptions == m.state.interruptions
  {
    hide Advance, BootEntry, LiveAll, MeansAll, Means, CoreOf, Live, Appended, SomeOf, Encode, RecOf;
    var a := Advance(m);
    var b := BootEntry(c, a, boot, incarnation, now, policy);
    var p := Entry(POLICY_COMMIT, a.lastSeq + 2, PolicyPayload(policy));
    BootIs(c, a, boot, incarnation, now, policy);
    AdvanceLength(m);
    AdvanceMeans(c, m, boot, incarnation, now, policy);
    FirstLive(c, a.state, [], b, p, policy);
    if restored {
      MeansOne(c, CoreOf(m.state), b);
    } else {
      MeansTwo(c, CoreOf(m.state), b, p);
      PolicyMeans(c, a.state, p, policy);
    }
  }

  lemma BootIs(c: Config, m: Mem, boot: nat, incarnation: nat, now: int, policy: Policy)
    ensures BootEntry(c, m, boot, incarnation, now, policy).what.BootPayload?
  {}

  /**
   * A completed opening: the epoch is one above the recovered one, no fence of an earlier life is open, there is one
   * more interruption for each that was, opening once more would fence none, and replay will read all of that back.
   */
  lemma OpeningSettles(c: Config, m: Mem, boot: nat, incarnation: nat, now: int, policy: Policy)
    requires c.maxLineage > 0 && |m.state.lineage| <= c.maxLineage && UniqueIds(m.state.fences)
    ensures var es := OpeningEntries(c, m, boot, incarnation, now, policy);
            var s := LiveAll(c, Advance(m).state, es);
            && s.epoch == m.state.epoch + 1 && s.fences == SettledAll(m.state.fences)
            && NoneOpen(s.fences) && Quiet(s.fences)
            && s.interruptions == m.state.interruptions + |OpenFences(m.state.fences)|
            && CoreOf(s) == MeansAll(c, CoreOf(m.state), es)
  {
    hide LiveAll, MeansAll, RestartEntries, FirstEntries, Advance, UniqueIds, SettledAll, NoBoot, NoneOpen, Quiet;
    hide CoreOf, OpenFences, Appended;
    var restored := m.state.fingerprint == c.fingerprint(policy);
    var first := FirstEntries(c, Advance(m), boot, incarnation, now, policy, restored);
    var n := m.lastSeq + |first|;
    var rest := RestartEntries(m.state.fences, n, now);
    FirstMeans(c, m, boot, incarnation, now, policy, restored);
    var s1 := LiveAll(c, Advance(m).state, first);
    LiveAllAppend(c, Advance(m).state, first, rest);
    MeansAllAppend(c, CoreOf(m.state), first, rest);
    RestartNoBoot(m.state.fences, n, now);
    LiveMeans(c, s1, rest);
    CoreFields(s1);
    CoreFields(LiveAll(c, s1, rest));
    RestartFencesAll(c, CoreOf(s1), n, now);
  }

  // ---- the policy's version number ----

  /** The replayed state of a boot record and the records behind it names the opening's own policy version. */
  function ReplayedVersion(c: Config, m: Mem, b: Entry): nat {
    Apply(c, m, RecOf(c, b)).0.state.policy
  }

  /**
   * Live and replayed state name the same policy version after an opening exactly when the policy was committed again
   * or the restored version number is the configured one.
   */
  lemma PolicyVersion(c: Config, m: Mem, boot: nat, incarnation: nat, now: int, policy: Policy)
    requires Lawful(c) && Encodable(c, BootEntry(c, Advance(m), boot, incarnation, now, policy).what)
    ensures var b := BootEntry(c, Advance(m), boot, incarnation, now, policy);
            var restored := m.state.fingerprint == c.fingerprint(policy);
            var live := LiveAll(c, Advance(m).state,
                                FirstEntries(c, Advance(m), boot, incarnation, now, policy, restored)).policy;
            live == ReplayedVersion(c, m, b) <==> !restored || m.state.policy == policy.version
  {
    hide LiveAll, Appended, SomeOf, Encode;
    var a := Advance(m);
    var b := BootEntry(c, a, boot, incarnation, now, policy);
    var p := Entry(POLICY_COMMIT, a.lastSeq + 2, PolicyPayload(policy));
    FirstLive(c, a.state, [], b, p, policy);
    assert c.dec(b.kind, c.enc(b.what)) == Some(b.what);
  }

  /**
   * The version can be stale: a life under policy q cut between its boot record and its policy record leaves this
   * state.
   */
  lemma StaleVersion(c: Config, m: Mem, p: Policy, q: Policy, boot: nat, incarnation: nat, now: int)
    requires Lawful(c) && m.state.fingerprint == c.fingerprint(p) && p.version != q.version
    requires Encodable(c, BootEntry(c, Advance(m), boot, incarnation, now, q).what)
    ensures var cut := Apply(c, m, RecOf(c, BootEntry(c, Advance(m), boot, incarnation, now, q)));
            && cut.1 == Ok && cut.0.state.fingerprint == c.fingerprint(p) && cut.0.state.policy != p.version
  {
    var b := BootEntry(c, Advance(m), boot, incarnation, now, q);
    assert c.dec(b.kind, c.enc(b.what)) == Some(b.what);
  }

  // ---- the object's steps are the machine's ----

  /** What the store object shows of an open, quiet machine. */
  function DiskOf(s: System): Disk
    requires s.process.Up?
  {
    Disk(s.process.mem.state, s.process.mem.lastSeq, s.journal, true)
  }

  /** One commit of the object is one record begun and acknowledged in the machine of crashes. */
  lemma CommitIsRun(c: Config, s: System, kind: nat, what: Payload)
    requires s.process.Up? && s.pending.None? && !s.halfDone
    requires var n := Entry(kind, s.process.mem.lastSeq + 1, what);
             && Committed(n) && kind != BOOT && kind != CHECKPOINT
             && (Storable(c, n) || !Encodable(c, what))
    ensures var t := Run(c, s, Commits(kind, what));
            && t.process.Up? && DiskOf(t) == Commit(c, DiskOf(s), kind, what).0
            && t.log == (if Encodable(c, what) && |s.journal| < c.bounds.bytes
                         then s.log + [Entry(kind, s.process.mem.lastSeq + 1, what)] else s.log)
  {
    hide Live, Encode, RecOf, Encodable, CoreOf, Matches;
    RunTwo(c, s, Begin(kind, what), Ack);
  }

  /** A checkpoint of the object is the machine's replacement, truncation and one more record. */
  lemma CheckpointIsRun(c: Config, s: System)
    requires s.process.Up? && s.pending.None? && !s.halfDone
    requires var what := CheckpointPayload(s.process.mem.lastSeq, s.process.mem.state.epoch);
             Storable(c, Entry(CHECKPOINT, s.process.mem.lastSeq + 1, what)) || !Encodable(c, what)
    ensures var t := Do(c, Run(c, s, [Replace, Truncate]), Ack);
            && t.process.Up? && DiskOf(t) == Checkpointed(c, DiskOf(s))
            && t.snapshot == (if SnapshotFits(c, Snap(s.process.mem)) then Some(Snap(s.process.mem)) else s.snapshot)
  {
    hide Encode, RecOf, Encodable, SnapshotFits;
    RunTwo(c, s, Replace, Truncate);
  }

  /** An opening of the object up to its boot record is the machine's opening, acknowledged. */
  lemma BootIsRun(c: Config, s: System, boot: nat, incarnation: nat, now: int, policy: Policy)
    requires s.process.Down? && Recover(c, s.snapshot, s.journal).Recovered? && boot != 0 && incarnation != 0
    requires var r := Recover(c, s.snapshot, s.journal);
             && |r.journal| < c.bounds.bytes
             && Storable(c, BootEntry(c, Advance(r.mem), boot, incarnation, now, policy))
    ensures var r := Recover(c, s.snapshot, s.journal);
            var b := BootEntry(c, Advance(r.mem), boot, incarnation, now, policy);
            var t := Run(c, s, [Open(boot, incarnation, now, policy), Ack]);
            && t.process.Up? && t.pending.None? && !t.halfDone && t.log == Durably(c, s) + [b]
            && DiskOf(t) == Disk(Advance(r.mem).state, r.mem.lastSeq + 1, r.journal + Encode(RecOf(c, b)), true)
  {
    hide Recover, Encode, RecOf, Storable, Durably;
    RunTwo(c, s, Open(boot, incarnation, now, policy), Ack);
  }
}
