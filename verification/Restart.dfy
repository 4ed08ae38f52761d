/** Restart safety: what an opening commits, and what it leaves of earlier authority. */
module Restart {
  import opened Domain
  import opened Store
  import opened StoreRuns

  function FencedByOpening(f: Fence): Fence {
    f.(life := FencedByRestart, terminal := RestartFencedPriorAuthority)
  }

  function InterruptionOf(f: Fence, now: int): Payload {
    InterruptionPayload(RestartFencedPriorAuthority, f.intent.id, f.intent.decision, f.intent.scope,
                        f.intent.gens.epoch, f.intent.boot, f.intent.incarnation, now)
  }

  /** The two records an open fence of an earlier life gets. */
  function Pair(f: Fence, number: nat, now: int): seq<Entry> {
    [Entry(INTERRUPTION_COMMIT, number + 1, InterruptionOf(f, now)),
     Entry(FENCE_REVOKE, number + 2, FencePayload(FencedByOpening(f)))]
  }

  /** The records an opening commits for the fences it finds, numbered after the given one. */
  function RestartEntries(fs: seq<Fence>, number: nat, now: int): seq<Entry> {
    if fs == [] then []
    else if OpenLife(fs[0].life) then Pair(fs[0], number, now) + RestartEntries(fs[1..], number + 2, now)
    else RestartEntries(fs[1..], number, now)
  }

  function OpenFences(fs: seq<Fence>): seq<Fence> {
    if fs == [] then []
    else if OpenLife(fs[0].life) then [fs[0]] + OpenFences(fs[1..])
    else OpenFences(fs[1..])
  }

  function Settled(f: Fence): Fence {
    if OpenLife(f.life) then FencedByOpening(f) else f
  }

  /** The fence table an opening leaves. */
  function SettledAll(fs: seq<Fence>): (r: seq<Fence>)
    ensures |r| == |fs|
  {
    seq(|fs|, i requires 0 <= i < |fs| => Settled(fs[i]))
  }

  predicate UniqueIds(fs: seq<Fence>) {
    forall i, j :: 0 <= i < j < |fs| ==> fs[i].intent.id != fs[j].intent.id
  }

  function OfKind(es: seq<Entry>, kind: nat): seq<Payload> {
    if es == [] then []
    else if es[0].kind == kind then [es[0].what] + OfKind(es[1..], kind)
    else OfKind(es[1..], kind)
  }

  function MeansAll(c: Config, k: Core, es: seq<Entry>): Core
    decreases |es|
  {
    if es == [] then k else MeansAll(c, Means(c, k, es[0]), es[1..])
  }

  // ---- one interruption and one revocation for each open fence ----

  function Interruptions(fs: seq<Fence>, now: int): (r: seq<Payload>)
    ensures |r| == |fs|
  {
    seq(|fs|, i requires 0 <= i < |fs| => InterruptionOf(fs[i], now))
  }

  function Revocations(fs: seq<Fence>): (r: seq<Payload>)
    ensures |r| == |fs|
  {
    seq(|fs|, i requires 0 <= i < |fs| => FencePayload(FencedByOpening(fs[i])))
  }

  lemma OfKindPair(f: Fence, number: nat, now: int, es: seq<Entry>)
    ensures OfKind(Pair(f, number, now) + es, INTERRUPTION_COMMIT) ==
            [InterruptionOf(f, now)] + OfKind(es, INTERRUPTION_COMMIT)
    ensures OfKind(Pair(f, number, now) + es, FENCE_REVOKE) ==
            [FencePayload(FencedByOpening(f))] + OfKind(es, FENCE_REVOKE)
  {
    hide InterruptionOf, FencedByOpening;
    var all := Pair(f, number, now) + es;
    assert all[1..] == [Pair(f, number, now)[1]] + es;
    assert all[1..][1..] == es;
  }

  /** An opening interrupts and revokes each fence it finds open, in table order, once each, and nothing else. */
  lemma {:induction false} OnePairEach(fs: seq<Fence>, number: nat, now: int)
    ensures var es := RestartEntries(fs, number, now);
            && OfKind(es, INTERRUPTION_COMMIT) == Interruptions(OpenFences(fs), now)
            && OfKind(es, FENCE_REVOKE) == Revocations(OpenFences(fs))
            && |es| == 2 * |OpenFences(fs)|
  {
    hide Pair, InterruptionOf, FencedByOpening;
    if fs != [] {
      if OpenLife(fs[0].life) {
        OnePairEach(fs[1..], number + 2, now);
        OfKindPair(fs[0], number, now, RestartEntries(fs[1..], number + 2, now));
        PairLength(fs[0], number, now);
      } else {
        OnePairEach(fs[1..], number, now);
      }
    }
  }

  lemma PairLength(f: Fence, number: nat, now: int)
    ensures |Pair(f, number, now)| == 2
  {}

  // ---- no authority of an earlier life survives ----

  lemma FindUnique(fs: seq<Fence>, i: nat)
    requires UniqueIds(fs) && i < |fs|
    ensures FindFence(fs, fs[i].intent.id) == i
  {}

  lemma MeansTwo(c: Config, k: Core, a: Entry, b: Entry)
    ensures MeansAll(c, k, [a, b]) == Means(c, Means(c, k, a), b)
  {
    hide Means;
    var k1 := Means(c, k, a);
    assert [a, b][1..] == [b] && [b][1..] == [];
    assert MeansAll(c, k1, [b]) == MeansAll(c, Means(c, k1, b), []);
  }

  lemma InterruptionMeans(c: Config, k: Core, e: Entry)
    requires e.what.InterruptionPayload?
    ensures var r := Means(c, k, e);
            && r.fences == k.fences && r.interruptions == k.interruptions + 1
            && r.epoch == k.epoch && r.fingerprint == k.fingerprint
  {}

  lemma RevocationMeans(c: Config, k: Core, e: Entry, i: nat)
    requires UniqueIds(k.fences) && i < |k.fences| && e.what.FencePayload?
             && e.what.fence.intent.id == k.fences[i].intent.id
    ensures var r := Means(c, k, e);
            && r.fences == k.fences[i := e.what.fence] && r.interruptions == k.interruptions
            && r.epoch == k.epoch && r.fingerprint == k.fingerprint
  {
    FindUnique(k.fences, i);
    hide FenceLine;
  }

  lemma PairMeans(c: Config, k: Core, i: nat, number: nat, now: int)
    requires UniqueIds(k.fences) && i < |k.fences|
    ensures var r := MeansAll(c, k, Pair(k.fences[i], number, now));
            && r.fences == k.fences[i := FencedByOpening(k.fences[i])] && r.interruptions == k.interruptions + 1
            && r.epoch == k.epoch && r.fingerprint == k.fingerprint
  {
    hide Means, UniqueIds, MeansAll, InterruptionOf;
    var es := Pair(k.fences[i], number, now);
    InterruptionPays(k.fences[i], now);
    InterruptionMeans(c, k, es[0]);
    RevocationMeans(c, Means(c, k, es[0]), es[1], i);
    MeansTwo(c, k, es[0], es[1]);
  }

  lemma InterruptionPays(f: Fence, now: int)
    ensures InterruptionOf(f, now).InterruptionPayload?
  {}

  lemma {:induction false} MeansAllAppend(c: Config, k: Core, a: seq<Entry>, b: seq<Entry>)
    ensures MeansAll(c, k, a + b) == MeansAll(c, MeansAll(c, k, a), b)
    decreases |a|
  {
    hide Means;
    if a == [] {
      assert a + b == b;
    } else {
      assert (a + b)[1..] == a[1..] + b;
      MeansAllAppend(c, Means(c, k, a[0]), a[1..], b);
    }
  }

  lemma SettledStep(was: seq<Fence>, fs: seq<Fence>, i: nat)
    requires i < |was| && |fs| == |was| && UniqueIds(was)
    requires fs == SettledAll(was[..i]) + was[i..]
    ensures fs[i] == was[i] && UniqueIds(fs)
    ensures fs[i := Settled(was[i])] == SettledAll(was[..i + 1]) + was[i + 1..]
  {
    assert forall j :: 0 <= j < |was| ==> fs[j].intent.id == was[j].intent.id;
  }

  /** After the records of an opening no fence is open: each that was is now fenced by the restart. */
  lemma {:induction false} SettlesFrom(c: Config, k: Core, was: seq<Fence>, i: nat, number: nat, now: int)
    requires UniqueIds(was) && i <= |was| && k.fences == SettledAll(was[..i]) + was[i..]
    ensures var r := MeansAll(c, k, RestartEntries(was[i..], number, now));
            && r.fences == SettledAll(was) && r.interruptions == k.interruptions + |OpenFences(was[i..])|
            && r.epoch == k.epoch && r.fingerprint == k.fingerprint
    decreases |was| - i
  {
    hide UniqueIds, Means, Pair, FencedByOpening, SettledAll;
    if i == |was| {
      assert was[..i] == was;
      assert was[i..] == [];
    } else {
      SettledStep(was, k.fences, i);
      assert was[i..][0] == was[i] && was[i..][1..] == was[i + 1..];
      if OpenLife(was[i].life) {
        var es := Pair(was[i], number, now);
        PairMeans(c, k, i, number, now);
        SettlesFrom(c, MeansAll(c, k, es), was, i + 1, number + 2, now);
        MeansAllAppend(c, k, es, RestartEntries(was[i + 1..], number + 2, now));
      } else {
        assert k.fences[i := was[i]] == k.fences;
        SettlesFrom(c, k, was, i + 1, number, now);
      }
    }
  }

  predicate NoneOpen(fs: seq<Fence>) {
    forall i :: 0 <= i < |fs| ==> !OpenLife(fs[i].life)
  }

  /** An opening would commit nothing for this table. */
  ghost predicate Quiet(fs: seq<Fence>) {
    forall number: nat, now: int :: RestartEntries(fs, number, now) == []
  }

  lemma {:induction false} NothingToFence(fs: seq<Fence>, number: nat, now: int)
    requires NoneOpen(fs)
    ensures RestartEntries(fs, number, now) == []
  {
    if fs != [] {
      NothingToFence(fs[1..], number, now);
    }
  }

  lemma SettledQuiet(fs: seq<Fence>)
    ensures NoneOpen(SettledAll(fs)) && Quiet(SettledAll(fs))
  {
    hide RestartEntries;
    forall number: nat, now: int
      ensures RestartEntries(SettledAll(fs), number, now) == []
    {
      NothingToFence(SettledAll(fs), number, now);
    }
  }

  /** Restart safety of one opening: every open fence is fenced, and opening again at once fences none. */
  lemma RestartFencesAll(c: Config, k: Core, number: nat, now: int)
    requires UniqueIds(k.fences)
    ensures var r := MeansAll(c, k, RestartEntries(k.fences, number, now));
            && r.fences == SettledAll(k.fences) && NoneOpen(r.fences) && Quiet(r.fences)
            && r.interruptions == k.interruptions + |OpenFences(k.fences)|
            && r.epoch == k.epoch && r.fingerprint == k.fingerprint
  {
    hide MeansAll, RestartEntries, UniqueIds, NoneOpen, Quiet, OpenFences;
    assert k.fences[..0] == [] && k.fences[0..] == k.fences;
    assert SettledAll([]) + k.fences == k.fences;
    SettlesFrom(c, k, k.fences, 0, number, now);
    SettledQuiet(k.fences);
  }

  // ---- the table of a history has one entry for each fence ----

  lemma PutUnique(fs: seq<Fence>, f: Fence)
    requires UniqueIds(fs)
    ensures UniqueIds(PutFence(fs, f))
  {
    var i := FindFence(fs, f.intent.id);
  }

  lemma {:induction false} MeaningUnique(c: Config, log: seq<Entry>)
    ensures UniqueIds(Meaning(c, log).fences)
  {
    hide UniqueIds, Recorded, PutFence, Room, Known, FenceLine, DecisionLine, InterruptionLine;
    if log == [] {
      NoFences();
    } else {
      var front, e := log[..|log| - 1], log[|log| - 1];
      MeaningUnique(c, front);
      MeansUnique(c, Meaning(c, front), e);
    }
  }

  lemma NoFences()
    ensures UniqueIds([])
  {}

  lemma MeansUnique(c: Config, k: Core, e: Entry)
    requires UniqueIds(k.fences)
    ensures UniqueIds(Means(c, k, e).fences)
  {
    hide UniqueIds, PutFence, Room, Known, FenceLine, DecisionLine, InterruptionLine;
    if e.what.FencePayload? {
      PutUnique(k.fences, e.what.fence);
    }
  }

  // ---- epochs ----

  lemma MeansEpoch(c: Config, k: Core, e: Entry)
    requires Committed(e)
    ensures Means(c, k, e).epoch == if e.what.BootPayload? then e.what.epoch else k.epoch
  {
    hide PutFence, Room, Known, FenceLine, DecisionLine, InterruptionLine;
  }

  /** No boot record of the history is above this epoch. */
  ghost predicate BootsUpTo(log: seq<Entry>, epoch: nat) {
    forall i :: 0 <= i < |log| && log[i].what.BootPayload? ==> log[i].what.epoch <= epoch
  }

  ghost predicate Rising(log: seq<Entry>) {
    forall i, j :: 0 <= i < j < |log| && log[i].what.BootPayload? && log[j].what.BootPayload? ==>
      log[i].what.epoch < log[j].what.epoch
  }

  lemma RisingStep(front: seq<Entry>, e: Entry, was: nat, now: nat)
    requires Rising(front) && BootsUpTo(front, was)
    requires if e.what.BootPayload? then e.what.epoch == was + 1 == now else now == was
    ensures Rising(front + [e]) && BootsUpTo(front + [e], now)
  {}

  /** Each boot record of a history has a greater epoch than all the earlier ones, and the last one is current. */
  lemma {:induction false} BootsRise(c: Config, log: seq<Entry>)
    requires ProperLog(c, log)
    ensures BootsUpTo(log, Meaning(c, log).epoch) && Rising(log)
  {
    hide Means, Storable, FreshIntent, CoreOf, ProperLog, Rising, BootsUpTo;
    if log == [] {
      NoBoots(0);
      BlankEpoch();
    } else {
      var front, e := log[..|log| - 1], log[|log| - 1];
      ProperFront(c, log);
      BootsRise(c, front);
      ProperAt(c, log, |log| - 1);
      MeansEpoch(c, Meaning(c, front), e);
      RisingStep(front, e, Meaning(c, front).epoch, Meaning(c, log).epoch);
      assert front + [e] == log;
    }
  }

  lemma NoBoots(epoch: nat)
    ensures BootsUpTo([], epoch) && Rising([])
  {}

  lemma BlankEpoch()
    ensures CoreOf(Blank()).epoch == 0
  {}

  lemma ProperFront(c: Config, log: seq<Entry>)
    requires ProperLog(c, log) && log != []
    ensures ProperLog(c, log[..|log| - 1])
  {
    hide Proper, Meaning;
    var front := log[..|log| - 1];
    forall i | 0 <= i < |front|
      ensures Proper(c, Meaning(c, front[..i]), i + 1, front[i])
    {
      ProperAt(c, log, i);
      assert front[..i] == log[..i];
    }
  }

  /** Over any chain of process lives, however they end, every boot has a greater epoch than every earlier one. */
  lemma EpochsRise(c: Config, events: seq<Event>, i: nat, j: nat)
    requires Lawful(c)
    requires var log := Run(c, Fresh(), events).log;
             i < j < |log| && log[i].what.BootPayload? && log[j].what.BootPayload?
    ensures var log := Run(c, Fresh(), events).log;
            log[i].what.epoch < log[j].what.epoch
  {
    hide Run, Fresh, Lawful, ProperLog, JournalOk, SnapshotOk, ProcessOk, PendingOk;
    FreshGood(c);
    RunGood(c, Fresh(), events);
    BootsRise(c, Run(c, Fresh(), events).log);
  }

  /** An opening starts above every boot so far, and finds no fence twice in its table. */
  lemma OpeningIsNew(c: Config, events: seq<Event>, e: Event, i: nat)
    requires Lawful(c) && e.Open?
    requires var s := Run(c, Fresh(), events);
             s.process.Down? && Opened(c, s, e).process.Booting? && i < |Opened(c, s, e).log|
             && Opened(c, s, e).log[i].what.BootPayload?
    ensures var t := Opened(c, Run(c, Fresh(), events), e);
            t.log[i].what.epoch < t.process.mem.state.epoch && UniqueIds(t.process.mem.state.fences)
  {
    hide Run, Fresh, Lawful, ProperLog, JournalOk, SnapshotOk, Meaning, Opened, UniqueIds;
    FreshGood(c);
    RunGood(c, Fresh(), events);
    var s := Run(c, Fresh(), events);
    OpenGood(c, s, e);
    var t := Opened(c, s, e);
    BootsRise(c, t.log);
    MeaningUnique(c, t.log);
    MeansEpoch(c, Meaning(c, t.log), t.pending.value);
    BootKeepsFences(c, Meaning(c, t.log), t.pending.value);
  }

  lemma BootKeepsFences(c: Config, k: Core, e: Entry)
    requires e.what.BootPayload?
    ensures Means(c, k, e).fences == k.fences
  {}
}
