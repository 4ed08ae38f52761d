/**
 * The total of fences issued, live and replayed, over every run: replay counts an intent record of a known fence too.
 */
module Totals {
  import opened Records
  import opened Store
  import opened StoreRuns

  /** The files' own total: the snapshot's, and the intent records behind it that found room. */
  function FileTotal(c: Config, s: System): nat {
    Base(s.snapshot).state.fencesTotal + IntentsFrom(c, s.log, if s.halfDone then |s.log| else s.base)
  }

  /** The record in flight is an intent record of a fence already in the table. */
  predicate Reuses(s: System)
    requires s.process.Up? && s.pending.Some?
  {
    var e := s.pending.value;
    e.what.FencePayload? && e.kind == FENCE_INTENT && Known(s.process.mem.state.fences, e.what.fence.intent.id)
  }

  /** How many intent records this process has committed for known fences since its opening or its last snapshot. */
  function Reused(c: Config, s: System, e: Event, k: nat): nat {
    match e
    case Ack => if s.process.Up? && s.pending.Some? && Reuses(s) then k + 1 else k
    case Replace => if Do(c, s, Replace) == s then k else 0
    case Open(_, _, _, _) => if s.process.Down? then 0 else k
    case _ => k
  }

  function ReusedAll(c: Config, s: System, events: seq<Event>, k: nat): nat
    decreases |events|
  {
    if events == [] then k else ReusedAll(c, Do(c, s, events[0]), events[1..], Reused(c, s, events[0], k))
  }

  /** The files count what the process counts, and the reused intents once more. */
  ghost predicate Tally(c: Config, s: System, k: nat) {
    !s.process.Down? ==> FileTotal(c, s) == s.process.mem.state.fencesTotal + k
  }

  lemma {:induction false} IntentsNext(c: Config, log: seq<Entry>, e: Entry, i: nat)
    requires i <= |log|
    ensures IntentsFrom(c, log + [e], i) ==
            IntentsFrom(c, log, i) + (if Issues(c, Meaning(c, log).fences, e) then 1 else 0)
    decreases |log| - i
  {
    hide Issues, Meaning;
    var longer := log + [e];
    if i < |log| {
      assert longer[..i] == log[..i];
      IntentsNext(c, log, e, i + 1);
    } else {
      assert longer[..i] == log;
      assert IntentsFrom(c, longer, i) == Adds(c, longer, i) + IntentsFrom(c, longer, i + 1);
    }
  }

  lemma AckTally(c: Config, s: System, k: nat)
    requires Lawful(c) && Good(c, s) && Tally(c, s, k) && !s.process.Down? && s.pending.Some?
    ensures Tally(c, Do(c, s, Ack), Reused(c, s, Ack, k))
  {
    hide ProperLog, Encode, RecsOf, Meaning, Means, CoreOf, IntentsFrom, Lawful, Storable, PutFence, Pushed, Apply;
    hide Known;
    var e := s.pending.value;
    CoreFields(s.process.mem.state);
    TotalOfLive(c, s.process.mem.state, e);
    IntentsNext(c, s.log, e, s.base);
  }

  lemma OpenTally(c: Config, s: System, e: Event)
    requires Lawful(c) && Good(c, s) && e.Open? && s.process.Down?
    ensures Tally(c, Opened(c, s, e), 0)
  {
    hide ProperLog, Recover, JournalOk, ProcessOk, PendingOk, Encode, RecsOf, Meaning, StandsFor, IntentsFrom, Lawful;
    hide Storable, Durably;
    OpenRecovers(c, s);
  }

  lemma DoTally(c: Config, s: System, e: Event, k: nat)
    requires Lawful(c) && Good(c, s) && Tally(c, s, k)
    ensures Tally(c, Do(c, s, e), Reused(c, s, e, k))
  {
    hide ProperLog, Encode, RecsOf, Meaning, Means, CoreOf, IntentsFrom, Lawful, Storable, Opened, Live, Recover;
    match e
    case Ack =>
      if !s.process.Down? && s.pending.Some? {
        AckTally(c, s, k);
      }
    case Open(_, _, _, _) =>
      if s.process.Down? {
        OpenTally(c, s, e);
      }
    case Replace => NothingSince(c, s.log);
    case _ =>
  }

  lemma NothingSince(c: Config, log: seq<Entry>)
    ensures IntentsFrom(c, log, |log|) == 0
  {}

  lemma {:induction false} RunTally(c: Config, s: System, events: seq<Event>, k: nat)
    requires Lawful(c) && Good(c, s) && Tally(c, s, k)
    ensures Tally(c, Run(c, s, events), ReusedAll(c, s, events, k)) && Good(c, Run(c, s, events))
    decreases |events|
  {
    hide Lawful, Good, Tally, Do, Reused;
    if events != [] {
      DoGood(c, s, events[0]);
      DoTally(c, s, events[0], k);
      RunTally(c, Do(c, s, events[0]), events[1..], Reused(c, s, events[0], k));
    }
  }

  /**
   * At every quiet moment of a run the files read back count the fences the process counts, and one more for each
   * intent record it has committed for a known fence since its opening or last snapshot; the totals agree if there was
   * none.
   */
  lemma TotalsOverRuns(c: Config, events: seq<Event>)
    requires Lawful(c)
    ensures var s, k := Run(c, Fresh(), events), ReusedAll(c, Fresh(), events, 0);
            var r := Recover(c, s.snapshot, s.journal);
            s.process.Up? && s.pending.None? && !s.halfDone && r.Recovered? ==>
              r.mem.state.fencesTotal == s.process.mem.state.fencesTotal + k
  {
    hide Lawful, Run, ReusedAll, Recover, Good, IntentsFrom, Fresh, StandsFor;
    FreshGood(c);
    NoProcess();
    RunTally(c, Fresh(), events, 0);
    var s := Run(c, Fresh(), events);
    if s.process.Up? && s.pending.None? && !s.halfDone {
      RecoverExact(c, s);
    }
  }

  lemma NoProcess()
    ensures Fresh().process.Down?
  {}

  /** After any run, what an opening reads back counts the snapshot's fences and the intent records behind it. */
  lemma TotalRecovered(c: Config, events: seq<Event>)
    requires Lawful(c)
    ensures var s := Run(c, Fresh(), events);
            var r := Recover(c, s.snapshot, s.journal);
            s.process.Down? && r.Recovered? ==>
              r.mem.state.fencesTotal ==
              Base(s.snapshot).state.fencesTotal + IntentsFrom(c, Durably(c, s), Base(s.snapshot).lastSeq)
  {
    hide Lawful, Run, Recover, Good, IntentsFrom, Fresh, StandsFor, Durably;
    FreshGood(c);
    RunGood(c, Fresh(), events);
    var s := Run(c, Fresh(), events);
    if s.process.Down? {
      OpenRecovers(c, s);
    }
  }
}
