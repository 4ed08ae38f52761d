/**
 * The engine over the store that crashes: what it has open in memory is what a recovery finds open and an opening
 * fences.
 */
module EngineRuns {
  import opened Bytes
  import opened Domain
  import opened Records
  import opened Store
  import opened Restart
  import opened LiveStore
  import M = StoreRuns
  import E = Engine
  import F = Fences

  // ---- the store as the machine has it ----

  /** The machine is open, quiet, and shows this disk. */
  ghost predicate Mirrors(c: Config, d: Disk, s: M.System) {
    M.Good(c, s) && s.process.Up? && s.pending.None? && !s.halfDone && DiskOf(s) == d
  }

  /** There are record numbers left for one more record. */
  predicate Numbered(d: Disk) {
    d.lastSeq + 2 < U64
  }

  /** Unless the record numbers ran out, the machine mirrors the disk. */
  ghost predicate Ready(c: Config, d: Disk, s: M.System) {
    Numbered(d) ==> Mirrors(c, d, s)
  }

  /** The disk moved on from d to e, and the machine with it. */
  ghost predicate Follows(c: Config, d: Disk, e: Disk, s: M.System, es: seq<M.Event>) {
    d.lastSeq <= e.lastSeq && Ready(c, e, M.Run(c, s, es))
  }

  lemma Stays(c: Config, d: Disk, s: M.System)
    requires Ready(c, d, s)
    ensures Follows(c, d, d, s, [])
  {}

  lemma Joins(c: Config, d: Disk, e: Disk, f: Disk, s: M.System, first: seq<M.Event>, more: seq<M.Event>)
    requires Follows(c, d, e, s, first) && Follows(c, e, f, M.Run(c, s, first), more)
    ensures Follows(c, d, f, s, first + more)
  {
    hide M.Run, Ready;
    M.RunAppend(c, s, first, more);
  }

  /** One commit of the engine, a record begun and acknowledged. */
  lemma Writes(c: Config, d: Disk, s: M.System, kind: nat, what: Payload) returns (es: seq<M.Event>)
    requires Lawful(c) && Ready(c, d, s)
    requires Matches(kind, what) && (kind == DECISION_COMMIT || FENCE_INTENT <= kind <= FENCE_REVOKE)
    ensures Follows(c, d, Commit(c, d, kind, what).0, s, es)
  {
    hide M.Good, M.Run, Live, Encode, Lawful, CoreOf;
    if Numbered(d) && Encodable(c, what) && |d.journal| < c.bounds.bytes {
      var e := Entry(kind, d.lastSeq + 1, what);
      es := M.Commits(kind, what);
      Quietly(c, s);
      CommitIsRun(c, s, kind, what);
      M.Committing(c, s, kind, what);
      M.RunGood(c, s, es);
    } else {
      es := [];
      Stays(c, d, s);
    }
  }

  lemma Quietly(c: Config, s: M.System)
    requires M.Good(c, s) && s.process.Up?
    ensures s.process.mem.lastSeq == |s.log| && CoreOf(s.process.mem.state) == Meaning(c, s.log)
  {}

  /** The machine's checkpoint. */
  lemma Checkpoints(c: Config, d: Disk, s: M.System) returns (es: seq<M.Event>)
    requires Lawful(c) && Ready(c, d, s)
    ensures Follows(c, d, Checkpointed(c, d), s, es)
  {
    hide M.Good, M.Run, Live, Encode, Lawful;
    if Numbered(d) {
      var e := Entry(CHECKPOINT, s.process.mem.lastSeq + 1,
                     CheckpointPayload(s.process.mem.lastSeq, s.process.mem.state.epoch));
      CheckpointIsRun(c, s);
      es := [M.Replace, M.Truncate] + [M.Ack];
      M.RunAppend(c, s, [M.Replace, M.Truncate], [M.Ack]);
      M.RunOne(c, M.Run(c, s, [M.Replace, M.Truncate]), M.Ack);
      M.RunTwo(c, s, M.Replace, M.Truncate);
      M.RunGood(c, s, es);
    } else {
      es := [];
      Stays(c, d, s);
    }
  }

  // ---- the engine's steps ----

  lemma EndedFollows(x: E.Setup, s: E.State, id: nat, m: M.System) returns (es: seq<M.Event>)
    requires Lawful(x.store) && Ready(x.store, s.disk, m)
    ensures Follows(x.store, s.disk, E.CommitEnded(x, s, id).disk, m, es)
  {
    hide Lawful, Ready, Commit, FindFence, Follows;
    var i := FindFence(s.reg.records, id);
    if i == |s.reg.records| {
      es := [];
      Stays(x.store, s.disk, m);
    } else {
      es := Writes(x.store, s.disk, m, FENCE_REVOKE, FencePayload(s.reg.records[i]));
    }
  }

  lemma {:induction false} AllEndedFollows(x: E.Setup, s: E.State, ids: seq<nat>,
                                           m: M.System) returns (es: seq<M.Event>)
    requires Lawful(x.store) && Ready(x.store, s.disk, m)
    ensures Follows(x.store, s.disk, E.CommitAllEnded(x, s, ids).disk, m, es)
    decreases |ids|
  {
    hide Lawful, Ready, E.CommitEnded, M.Run;
    if ids == [] {
      es := [];
      Stays(x.store, s.disk, m);
    } else {
      var front := E.CommitAllEnded(x, s, ids[..|ids| - 1]);
      var first := AllEndedFollows(x, s, ids[..|ids| - 1], m);
      var more := EndedFollows(x, front, ids[|ids| - 1], M.Run(x.store, m, first));
      es := first + more;
      Joins(x.store, s.disk, front.disk, E.CommitAllEnded(x, s, ids).disk, m, first, more);
    }
  }

  lemma BegunFollows(x: E.Setup, s: E.State, c: E.Call, m: M.System) returns (es: seq<M.Event>)
    requires Lawful(x.store) && Ready(x.store, s.disk, m)
    ensures Follows(x.store, s.disk, E.Begun(x, s, c).disk, m, es)
  {
    hide Lawful, Ready, E.CommitAllEnded, M.Run, F.Revalidate;
    var t := s.(counters := s.counters.(evaluations := s.counters.evaluations + 1));
    var (r, ids) := F.Revalidate(t.reg, c.revalidatedAt, c.gens);
    es := AllEndedFollows(x, t.(reg := r), ids, m);
  }

  lemma IssuanceFollows(x: E.Setup, s: E.State, c: E.Call, m: M.System) returns (es: seq<M.Event>)
    requires Lawful(x.store) && Ready(x.store, s.disk, m)
    requires c.scope != 0 && Complete(c.gens) && E.Identified(x)
    ensures Follows(x.store, s.disk, E.Issuance(x, s, c).0.disk, m, es)
  {
    hide Lawful, Ready, Follows, Commit, F.CommitStaged, F.FirstOpenFor, F.FirstHolder, FindFence;
    E.StagedMints(x, s, c);
    var i := F.IntentFor(x.rules, E.AskOf(x, c), c.mint);
    if F.Stage(x.rules, s.reg, E.AskOf(x, c), c.mint).1 == Ok {
      es := Writes(x.store, s.disk, m, FENCE_INTENT, FencePayload(NewFence(i)));
    } else {
      es := [];
      Stays(x.store, s.disk, m);
    }
  }

  lemma DecisionFollows(x: E.Setup, s: E.State, d: Decision, m: M.System) returns (es: seq<M.Event>)
    requires Lawful(x.store) && Ready(x.store, s.disk, m)
    ensures Follows(x.store, s.disk, E.CommitDecision(x, s, d).0.disk, m, es)
  {
    hide Lawful, Ready, Commit, Follows;
    es := Writes(x.store, s.disk, m, DECISION_COMMIT, DecisionPayload(d));
  }

  lemma ConcludedDisk(x: E.Setup, s: E.State, d: Decision, endedAt: int)
    ensures E.Concluded(x, s, d, endedAt).0.disk == E.CommitDecision(x, s, d).0.disk
  {}

  lemma EvaluateFollows(x: E.Setup, s: E.State, c: E.Call, m: M.System) returns (es: seq<M.Event>)
    requires Lawful(x.store) && Ready(x.store, s.disk, m) && E.Identified(x)
    ensures Follows(x.store, s.disk, E.Evaluate(x, s, c).0.disk, m, es)
  {
    hide Lawful, Ready, M.Run, E.Begun, E.Issuance, E.Concluded, E.CommitDecision, E.RungOf;
    es := [];
    Stays(x.store, s.disk, m);
    if s.disk.isOpen && c.scope != 0 && Complete(c.gens) {
      var b := E.Begun(x, s, c);
      var first := BegunFollows(x, s, c, m);
      var (t, intent) := E.Authorized(x, b, c);
      var more := [];
      Stays(x.store, b.disk, M.Run(x.store, m, first));
      if E.RungOf(c.diagnosis) == Authorization {
        more := IssuanceFollows(x, b, c, M.Run(x.store, m, first));
      }
      Joins(x.store, s.disk, b.disk, t.disk, m, first, more);
      var d := E.DecisionOf(x, c, intent);
      var last := DecisionFollows(x, t, d, M.Run(x.store, m, first + more));
      ConcludedDisk(x, t, d, c.endedAt);
      Joins(x.store, s.disk, t.disk, E.CommitDecision(x, t, d).0.disk, m, first + more, last);
      es := first + more + last;
    }
  }

  lemma GatedFollows(x: E.Setup, s: E.State, c: E.Call, m: M.System) returns (es: seq<M.Event>)
    requires Lawful(x.store) && Ready(x.store, s.disk, m)
    ensures Follows(x.store, s.disk, E.Gated(x, s, c).0.disk, m, es)
  {
    hide Lawful, Ready, Follows, Commit, F.Revoke, F.FirstOpenFor;
    var i := F.FirstOpenFor(s.reg.records, c.scope);
    if c.gate.authorized && i < |s.reg.records| {
      es := Writes(x.store, s.disk, m, FENCE_REVOKE, FencePayload(E.Withdrawn(s.reg.records[i], c.decidedAt)));
    } else {
      es := [];
      Stays(x.store, s.disk, m);
    }
  }

  lemma RestoreFollows(x: E.Setup, s: E.State, c: E.Call, m: M.System) returns (es: seq<M.Event>)
    requires Lawful(x.store) && Ready(x.store, s.disk, m)
    ensures Follows(x.store, s.disk, E.Restore(x, s, c).0.disk, m, es)
  {
    hide Lawful, Ready, M.Run, E.Begun, E.Gated, E.CommitDecision;
    es := [];
    Stays(x.store, s.disk, m);
    if s.disk.isOpen && c.scope != 0 && Complete(c.gens) {
      var b := E.Begun(x, s, c);
      var first := BegunFollows(x, s, c, m);
      var (t, rung, cause) := E.Gated(x, b, c);
      var more := GatedFollows(x, b, c, M.Run(x.store, m, first));
      Joins(x.store, s.disk, b.disk, t.disk, m, first, more);
      var d := E.RestorationOf(x, c, rung, cause);
      var last := DecisionFollows(x, t, d, M.Run(x.store, m, first + more));
      Joins(x.store, s.disk, t.disk, E.CommitDecision(x, t, d).0.disk, m, first + more, last);
      es := first + more + last;
    }
  }

  lemma PublishedFollows(x: E.Setup, s: E.State, id: nat, kind: nat, m: M.System) returns (es: seq<M.Event>)
    requires Lawful(x.store) && Ready(x.store, s.disk, m) && FENCE_INTENT < kind <= FENCE_REVOKE
    ensures Follows(x.store, s.disk, E.Published(x, s, id, kind).disk, m, es)
  {
    hide Lawful, Ready, Follows, Commit, FindFence;
    var i := FindFence(s.reg.records, id);
    if i == |s.reg.records| {
      es := [];
      Stays(x.store, s.disk, m);
    } else {
      es := Writes(x.store, s.disk, m, kind, FencePayload(s.reg.records[i]));
    }
  }

  lemma DoFollows(x: E.Setup, s: E.State, op: E.Op, m: M.System) returns (es: seq<M.Event>)
    requires Lawful(x.store) && Ready(x.store, s.disk, m) && E.Identified(x)
    ensures Follows(x.store, s.disk, E.Do(x, s, op).disk, m, es)
  {
    hide Lawful, Ready, Follows, Checkpointed, E.Evaluate, E.Restore, E.Published, E.CommitDecision, F.Acknowledge;
    hide F.ReportEffect;
    es := [];
    Stays(x.store, s.disk, m);
    match op
    case Evaluating(c) => es := EvaluateFollows(x, s, c, m);
    case Restoring(c) => es := RestoreFollows(x, s, c, m);
    case Acknowledging(id, owner, at) =>
      var (r, o) := F.Acknowledge(s.reg, id, owner, at);
      if s.disk.isOpen && o == Ok {
        es := PublishedFollows(x, s.(reg := r), id, FENCE_ACK, m);
      }
    case Reporting(id, owner, verified, at) =>
      var (r, o) := F.ReportEffect(s.reg, id, owner, verified, at);
      if s.disk.isOpen && o == Ok {
        es := PublishedFollows(x, s.(reg := r), id, FENCE_EFFECT, m);
      }
    case Enriching(d) =>
      es := DecisionFollows(x, s.(counters := s.counters.(enrichments := s.counters.enrichments + 1)), d, m);
    case Checkpointing => es := Checkpoints(x.store, s.disk, m);
  }

  // ---- every run ----

  lemma {:induction false} RunFollows(x: E.Setup, s: E.State, ops: seq<E.Op>, m: M.System) returns (es: seq<M.Event>)
    requires Lawful(x.store) && Ready(x.store, s.disk, m) && E.Identified(x)
    ensures Follows(x.store, s.disk, E.Run(x, s, ops).disk, m, es)
    decreases |ops|
  {
    hide Lawful, Ready, E.Do, M.Run;
    if ops == [] {
      es := [];
      Stays(x.store, s.disk, m);
    } else {
      var first := DoFollows(x, s, ops[0], m);
      var t := E.Do(x, s, ops[0]);
      var more := RunFollows(x, t, ops[1..], M.Run(x.store, m, first));
      es := first + more;
      Joins(x.store, s.disk, t.disk, E.Run(x, s, ops).disk, m, first, more);
    }
  }

  /** The fence an opening leaves of an open one: the same intent, fenced by the restart. */
  predicate FencedIn(fs: seq<Fence>, i: Intent) {
    var k := FindFence(fs, i.id);
    k < |fs| && fs[k].intent == i && fs[k].life == FencedByRestart
  }

  lemma SettledFinds(fs: seq<Fence>, i: Intent)
    requires E.DurablyOpen(fs, i)
    ensures FencedIn(SettledAll(fs), i)
  {
    FindSettled(fs, i.id);
  }

  lemma {:induction false} FindSettled(fs: seq<Fence>, id: nat)
    ensures FindFence(SettledAll(fs), id) == FindFence(fs, id)
  {
    if fs != [] && fs[0].intent.id != id {
      FindSettled(fs[1..], id);
      assert SettledAll(fs)[1..] == SettledAll(fs[1..]);
    }
  }

  /** A run of the machine that left the store open and quiet. */
  ghost predicate LeftOpen(c: Config, events: seq<M.Event>) {
    var m := M.Run(c, M.Fresh(), events);
    m.process.Up? && m.pending.None? && !m.halfDone
  }

  /** What an engine opened after these events starts from. */
  function Started(x: E.Setup, events: seq<M.Event>): E.State
    requires LeftOpen(x.store, events)
  {
    E.Opened(DiskOf(M.Run(x.store, M.Fresh(), events)))
  }

  /** Every fence open in memory is open in this table, and the opening that finds the table fences it. */
  ghost predicate SurvivesIn(rs: seq<Fence>, fs: seq<Fence>) {
    forall k :: 0 <= k < |rs| && OpenLife(rs[k].life) ==>
      E.DurablyOpen(fs, rs[k].intent) && FencedIn(SettledAll(fs), rs[k].intent)
  }

  /**
   * The engine on a store that some run has left open, and then any run of the engine: the machine follows with events
   * of its own, and its files at that moment are read back exactly when the bounds and the fence table allow it. What
   * is read back has every fence that is open in memory as an open one, and the next opening fences each of them.
   */
  lemma MemoryIsRecovered(x: E.Setup, events: seq<M.Event>, gens: Gens, ops: seq<E.Op>) returns (es: seq<M.Event>)
    requires E.Identified(x) && Lawful(x.store) && LeftOpen(x.store, events)
    requires E.FreshAlong(x, Started(x, events), ops) && Numbered(E.Run(x, Started(x, events), ops).disk)
    ensures var s, t := E.Run(x, Started(x, events), ops), M.Run(x.store, M.Fresh(), events + es);
            var r := M.Recover(x.store, t.snapshot, t.journal);
            && t.process.Up? && DiskOf(t) == s.disk
            && (r.Recovered? <==> M.Readable(x.store, t) && M.Roomy(x.store, t.log, t.base))
            && (r.Recovered? ==> CoreOf(r.mem.state) == CoreOf(s.disk.state)
                                 && SurvivesIn(s.reg.records, r.mem.state.fences))
  {
    hide Lawful, M.Good, M.Run, M.Fresh, E.Run, E.LastGens, E.Opened, M.Recover, M.Readable, M.Roomy, E.FreshAlong;
    hide CoreOf, SurvivesIn;
    var m := M.Run(x.store, M.Fresh(), events);
    M.FreshGood(x.store);
    M.RunGood(x.store, M.Fresh(), events);
    E.OpenedParts(DiskOf(m));
    es := RunFollows(x, E.Opened(DiskOf(m)), ops, m);
    M.RunAppend(x.store, M.Fresh(), events, es);
    var s, t := E.Run(x, E.Opened(DiskOf(m)), ops), M.Run(x.store, m, es);
    E.OpenedGood(x, DiskOf(m), gens);
    AllRecover(x, DiskOf(m), gens, ops);
    ReadBackIs(x.store, s.disk, t);
  }

  lemma AllRecover(x: E.Setup, d: Disk, gens: Gens, ops: seq<E.Op>)
    requires E.Identified(x) && E.FreshAlong(x, E.Opened(d), ops)
    ensures var s := E.Run(x, E.Opened(d), ops); SurvivesIn(s.reg.records, s.disk.state.fences)
  {
    hide E.Run, E.LastGens, E.Opened, E.DurablyOpen, FencedIn, E.FreshAlong;
    E.EveryRun(x, d, gens, ops);
    var s := E.Run(x, E.Opened(d), ops);
    forall k | 0 <= k < |s.reg.records| && OpenLife(s.reg.records[k].life)
      ensures FencedIn(SettledAll(s.disk.state.fences), s.reg.records[k].intent)
    {
      SettledFinds(s.disk.state.fences, s.reg.records[k].intent);
    }
  }

  /** What a quiet machine's files are read back as. */
  lemma ReadBackIs(c: Config, d: Disk, s: M.System)
    requires Lawful(c) && Mirrors(c, d, s)
    ensures var r := M.Recover(c, s.snapshot, s.journal);
            && (r.Recovered? <==> M.Readable(c, s) && M.Roomy(c, s.log, s.base))
            && (r.Recovered? ==> r.mem.state.fences == d.state.fences && CoreOf(r.mem.state) == CoreOf(d.state))
  {
    hide M.Good, M.Recover, M.Readable, M.Roomy, Lawful, CoreOf;
    M.RecoverExact(c, s);
    Quietly(c, s);
    assert s.log[..|s.log|] == s.log;
    var r := M.Recover(c, s.snapshot, s.journal);
    if r.Recovered? {
      CoreFields(r.mem.state);
      CoreFields(d.state);
    }
  }
}
