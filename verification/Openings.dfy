/** A whole opening as a run of the machine, and what is left of earlier fences once it is read back. */
module Openings {
  import opened Domain
  import opened Records
  import opened Store
  import opened StoreRuns
  import opened Restart
  import opened LiveStore

  /** Records committed one after another. */
  function CommitAll(es: seq<Entry>): seq<Event> {
    if es == [] then [] else CommitAll(es[..|es| - 1]) + Commits(es[|es| - 1].kind, es[|es| - 1].what)
  }

  /** The records are numbered on from n, of types a running store commits. */
  ghost predicate Following(es: seq<Entry>, n: nat) {
    forall i :: 0 <= i < |es| ==> Follows(es[i], n + 1 + i)
  }

  predicate Follows(e: Entry, number: nat) {
    e.number == number && Committed(e) && e.kind != BOOT && e.kind != CHECKPOINT
  }

  /** A journal of n bytes takes every one of the records. */
  ghost predicate AllFit(c: Config, n: nat, es: seq<Entry>) {
    forall i :: 0 <= i < |es| ==> Storable(c, es[i]) && n + |Appended(c, es[..i])| < c.bounds.bytes
  }

  /** The machine s, open and quiet, has gone on to t by committing these records. */
  ghost predicate WentOn(c: Config, s: System, t: System, es: seq<Entry>) {
    && Good(c, t) && t.process.Up? && t.pending.None? && !t.halfDone && t.log == s.log + es
    && s.process.Up? && t.process.mem.state == LiveAll(c, s.process.mem.state, es)
    && t.journal == s.journal + Appended(c, es)
  }

  lemma {:induction false} CommitAllRuns(c: Config, s: System, es: seq<Entry>)
    requires Lawful(c) && Good(c, s) && s.process.Up? && s.pending.None? && !s.halfDone
    requires Following(es, |s.log|) && AllFit(c, |s.journal|, es)
    ensures WentOn(c, s, Run(c, s, CommitAll(es)), es)
    decreases |es|
  {
    hide Lawful, Good, Run, Live, Encode, RecOf, Commits, Storable, Appended, LiveAll, Follows;
    if es == [] {
      NothingWent(c, s);
    } else {
      var front, e := es[..|es| - 1], es[|es| - 1];
      FrontFits(c, |s.journal|, es);
      CommitAllRuns(c, s, front);
      var t := Run(c, s, CommitAll(front));
      RunAppend(c, s, CommitAll(front), Commits(e.kind, e.what));
      LastFits(c, s, es);
      OneMore(c, t, e);
      assert front + [e] == es;
      LiveNext(c, s.process.mem.state, front, e);
      var e0, e1 := Appended(c, front), Encode(RecOf(c, e));
      assert s.journal + (e0 + e1) == (s.journal + e0) + e1;
    }
  }

  lemma NothingWent(c: Config, s: System)
    requires Good(c, s) && s.process.Up? && s.pending.None? && !s.halfDone
    ensures WentOn(c, s, Run(c, s, CommitAll([])), [])
  {
    hide Good;
  }

  lemma FrontFits(c: Config, n: nat, es: seq<Entry>)
    requires AllFit(c, n, es) && es != []
    ensures AllFit(c, n, es[..|es| - 1])
  {
    hide Appended, Storable;
    var front := es[..|es| - 1];
    forall i | 0 <= i < |front|
      ensures front[..i] == es[..i]
    {}
  }

  lemma LastFits(c: Config, s: System, es: seq<Entry>)
    requires es != [] && Following(es, |s.log|) && AllFit(c, |s.journal|, es)
    ensures var e := es[|es| - 1];
            Follows(e, |s.log| + |es|) && Storable(c, e) && |s.journal| + |Appended(c, es[..|es| - 1])| < c.bounds.bytes
  {
    hide Appended, Storable, Follows;
  }

  lemma OneMore(c: Config, s: System, e: Entry)
    requires Lawful(c) && Good(c, s) && s.process.Up? && s.pending.None? && !s.halfDone && |s.journal| < c.bounds.bytes
    requires Follows(e, |s.log| + 1) && Storable(c, e)
    ensures var t := Run(c, s, Commits(e.kind, e.what));
            && Good(c, t) && t.process.Up? && t.pending.None? && !t.halfDone && t.log == s.log + [e]
            && t.process.mem.state == Live(c, s.process.mem.state, e).0 && t.journal == s.journal + Encode(RecOf(c, e))
  {
    hide Lawful, Good, Run, Live, Encode, RecOf, Commits, Committed;
    LastNumber(c, s);
    CommitIsRun(c, s, e.kind, e.what);
    Committing(c, s, e.kind, e.what);
    RunGood(c, s, Commits(e.kind, e.what));
  }

  lemma LastNumber(c: Config, s: System)
    requires Good(c, s) && s.process.Up?
    ensures s.process.mem.lastSeq == |s.log|
  {}

  // ---- the whole opening ----

  lemma {:induction false} RestartFollows(fs: seq<Fence>, number: nat, now: int)
    ensures Following(RestartEntries(fs, number, now), number)
  {
    hide InterruptionOf, FencedByOpening;
    if fs != [] {
      if OpenLife(fs[0].life) {
        RestartFollows(fs[1..], number + 2, now);
        PairFollows(fs[0], number, now, RestartEntries(fs[1..], number + 2, now));
      } else {
        RestartFollows(fs[1..], number, now);
      }
    }
  }

  lemma PairFollows(f: Fence, number: nat, now: int, rest: seq<Entry>)
    requires Following(rest, number + 2)
    ensures Following(Pair(f, number, now) + rest, number)
  {
    var es := Pair(f, number, now) + rest;
    forall i | 0 <= i < |es|
      ensures Follows(es[i], number + 1 + i)
    {
      assert i >= 2 ==> es[i] == rest[i - 2];
    }
  }

  /** What an opening appends behind its boot record. */
  function Behind(c: Config, m: Mem, e: Event): seq<Entry>
    requires e.Open?
  {
    OpeningEntries(c, m, e.boot, e.incarnation, e.now, e.policy)[1..]
  }

  lemma OpeningStarts(c: Config, m: Mem, e: Event)
    requires e.Open?
    ensures var b := BootEntry(c, Advance(m), e.boot, e.incarnation, e.now, e.policy);
            OpeningEntries(c, m, e.boot, e.incarnation, e.now, e.policy) == [b] + Behind(c, m, e)
    ensures Following(Behind(c, m, e), m.lastSeq + 1)
  {
    hide RestartEntries, Follows;
    var restored := m.state.fingerprint == c.fingerprint(e.policy);
    var first := FirstEntries(c, Advance(m), e.boot, e.incarnation, e.now, e.policy, restored);
    var rest := RestartEntries(m.state.fences, m.lastSeq + |first|, e.now);
    RestartFollows(m.state.fences, m.lastSeq + |first|, e.now);
    assert Behind(c, m, e) == first[1..] + rest;
    forall i | 0 <= i < |Behind(c, m, e)|
      ensures Follows(Behind(c, m, e)[i], m.lastSeq + 2 + i)
    {
      if i < |first| - 1 {
        PolicyFollows(first[1], m, e.policy);
      } else {
        assert Behind(c, m, e)[i] == rest[i - (|first| - 1)];
      }
    }
  }

  lemma PolicyFollows(e: Entry, m: Mem, policy: Policy)
    requires e == Entry(POLICY_COMMIT, m.lastSeq + 2, PolicyPayload(policy))
    ensures Follows(e, m.lastSeq + 2)
  {}

  lemma BootLive(c: Config, s: Durable, b: Entry)
    requires b.what.BootPayload?
    ensures LiveAll(c, s, [b]) == s && Appended(c, [b]) == Encode(RecOf(c, b))
  {
    hide Encode, RecOf;
    assert [b][..0] == [] && [] + Encode(RecOf(c, b)) == Encode(RecOf(c, b));
  }

  lemma RestFits(c: Config, n: nat, b: Entry, rest: seq<Entry>)
    requires AllFit(c, n, [b] + rest) && b.what.BootPayload?
    ensures Storable(c, b) && n < c.bounds.bytes && AllFit(c, n + |Encode(RecOf(c, b))|, rest)
  {
    hide Appended, Storable, Encode, RecOf, LiveAll;
    var es := [b] + rest;
    BootLive(c, Blank(), b);
    assert es[..0] == [];
    forall i | 0 <= i < |rest|
      ensures es[i + 1] == rest[i] && |Appended(c, es[..i + 1])| == |Encode(RecOf(c, b))| + |Appended(c, rest[..i])|
    {
      assert es[..i + 1] == [b] + rest[..i];
      LiveAllAppend(c, Blank(), [b], rest[..i]);
    }
    NoBytes(c);
  }

  lemma NoBytes(c: Config)
    ensures Appended(c, []) == []
  {}

  /**
   * A completed opening is a run: the machine's opening, its boot record acknowledged, and one commit for each other
   * record.
   */
  lemma OpeningIsRun(c: Config, s: System, e: Event)
    requires Lawful(c) && Good(c, s) && s.process.Down? && e.Open? && e.boot != 0 && e.incarnation != 0
    requires Recover(c, s.snapshot, s.journal).Recovered?
    requires var r := Recover(c, s.snapshot, s.journal);
             AllFit(c, |r.journal|, OpeningEntries(c, r.mem, e.boot, e.incarnation, e.now, e.policy))
    ensures var r := Recover(c, s.snapshot, s.journal);
            var es := OpeningEntries(c, r.mem, e.boot, e.incarnation, e.now, e.policy);
            var t := Run(c, s, [e, Ack] + CommitAll(Behind(c, r.mem, e)));
            && Good(c, t) && t.process.Up? && t.pending.None? && !t.halfDone && t.log == Durably(c, s) + es
            && t.process.mem.state == LiveAll(c, Advance(r.mem).state, es) && t.journal == r.journal + Appended(c, es)
  {
    hide Lawful, Good, Recover, Run, Encode, RecOf, Storable, Durably, OpeningEntries, AllFit, Following, LiveAll;
    hide Appended, Behind, BootEntry, Advance;
    var r := Recover(c, s.snapshot, s.journal);
    var b, rest := BootEntry(c, Advance(r.mem), e.boot, e.incarnation, e.now, e.policy), Behind(c, r.mem, e);
    OpeningStarts(c, r.mem, e);
    BootIs(c, Advance(r.mem), e.boot, e.incarnation, e.now, e.policy);
    RestFits(c, |r.journal|, b, rest);
    BootIsRun(c, s, e.boot, e.incarnation, e.now, e.policy);
    var u := Run(c, s, [e, Ack]);
    RunGood(c, s, [e, Ack]);
    LastNumber(c, u);
    CommitAllRuns(c, u, rest);
    RunAppend(c, s, [e, Ack], CommitAll(rest));
    BootLive(c, Advance(r.mem).state, b);
    LiveAllAppend(c, Advance(r.mem).state, [b], rest);
    assert Durably(c, s) + ([b] + rest) == (Durably(c, s) + [b]) + rest;
    var e0, e1 := Encode(RecOf(c, b)), Appended(c, rest);
    assert r.journal + (e0 + e1) == (r.journal + e0) + e1;
  }

  // ---- read back ----

  lemma {:induction false} MeaningAll(c: Config, log: seq<Entry>, es: seq<Entry>)
    ensures Meaning(c, log + es) == MeansAll(c, Meaning(c, log), es)
    decreases |es|
  {
    hide Means, Meaning;
    if es == [] {
      assert log + es == log;
    } else {
      MeaningNext(c, log, es[0]);
      MeaningAll(c, log + [es[0]], es[1..]);
      assert (log + [es[0]]) + es[1..] == log + es;
    }
  }

  /** Opening this table again would settle nothing: all its fences have ended, and no record is written for any. */
  ghost predicate AllSettled(c: Config, m: Mem, fs: seq<Fence>) {
    && m.state.fences == SettledAll(fs) && NoneOpen(m.state.fences)
    && forall number: nat, now: int :: RestartEntries(m.state.fences, number, now) == []
  }

  /**
   * The records of a completed opening behind any history, crashed in whatever way and read back: every fence that
   * opening found open is ended, and the next opening writes no record for any fence.
   */
  lemma SettledReadBack(c: Config, s: System, log: seq<Entry>, m: Mem, e: Event)
    requires Lawful(c) && Good(c, s) && s.process.Down? && e.Open?
    requires CoreOf(m.state) == Meaning(c, log) && |m.state.lineage| <= c.maxLineage
    requires Durably(c, s) == log + OpeningEntries(c, m, e.boot, e.incarnation, e.now, e.policy)
    ensures var r := Recover(c, s.snapshot, s.journal);
            r.Recovered? ==> AllSettled(c, r.mem, m.state.fences)
  {
    hide Lawful, Good, Recover, Meaning, CoreOf, OpeningEntries, MeansAll, LiveAll, Durably, RestartEntries, SettledAll;
    hide NoneOpen;
    var es := OpeningEntries(c, m, e.boot, e.incarnation, e.now, e.policy);
    var r := Recover(c, s.snapshot, s.journal);
    if r.Recovered? {
      Positive(c);
      MeaningUnique(c, log);
      CoreFields(m.state);
      OpeningSettles(c, m, e.boot, e.incarnation, e.now, e.policy);
      ReadBackMeans(c, s);
      MeaningAll(c, log, es);
      CoreFields(r.mem.state);
      CoreFields(LiveAll(c, Advance(m).state, es));
    }
  }

  lemma ReadBackMeans(c: Config, s: System)
    requires Lawful(c) && Good(c, s) && s.process.Down?
    ensures var r := Recover(c, s.snapshot, s.journal);
            r.Recovered? ==> CoreOf(r.mem.state) == Meaning(c, Durably(c, s)) && |r.mem.state.lineage| <= c.maxLineage
  {
    hide Lawful, Good, Recover, Meaning, CoreOf, Durably;
    OpenRecovers(c, s);
    assert Durably(c, s)[..|Durably(c, s)|] == Durably(c, s);
  }

  /** Open, crash, open: on any store a run left down, a completed opening fences for good what it found open. */
  lemma OpeningFencesForGood(c: Config, events: seq<Event>, e: Event, kept: nat)
    requires Lawful(c) && e.Open? && e.boot != 0 && e.incarnation != 0
    requires var s := Run(c, Fresh(), events);
             s.process.Down? && Recover(c, s.snapshot, s.journal).Recovered?
    requires var s := Run(c, Fresh(), events);
             var r := Recover(c, s.snapshot, s.journal);
             AllFit(c, |r.journal|, OpeningEntries(c, r.mem, e.boot, e.incarnation, e.now, e.policy))
    ensures var s := Run(c, Fresh(), events);
            var r := Recover(c, s.snapshot, s.journal);
            var t := Run(c, s, ([e, Ack] + CommitAll(Behind(c, r.mem, e))) + [Crash(kept)]);
            var again := Recover(c, t.snapshot, t.journal);
            && (again.Recovered? <==> Readable(c, t) && Roomy(c, t.log, t.base))
            && (again.Recovered? ==> AllSettled(c, again.mem, r.mem.state.fences))
  {
    hide Lawful, Good, Recover, Run, Durably, OpeningEntries, AllFit, Behind, AllSettled, Meaning, CoreOf, Readable;
    hide Roomy, Encode, RecOf, Fresh;
    FreshGood(c);
    RunGood(c, Fresh(), events);
    var s := Run(c, Fresh(), events);
    var r := Recover(c, s.snapshot, s.journal);
    ReadBackMeans(c, s);
    OpeningIsRun(c, s, e);
    var es := [e, Ack] + CommitAll(Behind(c, r.mem, e));
    var t := Run(c, s, es);
    RunAppend(c, s, es, [Crash(kept)]);
    RunOne(c, t, Crash(kept));
    CrashGood(c, t, kept);
    QuietlyDurable(c, t);
    RecoverExact(c, Do(c, t, Crash(kept)));
    SettledReadBack(c, Do(c, t, Crash(kept)), Durably(c, s), r.mem, e);
  }

  lemma QuietlyDurable(c: Config, t: System)
    requires t.pending.None?
    ensures Durably(c, t) == t.log && Durably(c, t.(process := Down)) == t.log
  {}
}
