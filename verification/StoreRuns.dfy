/** The store as a machine of commits, checkpoints, crashes and openings, over every run. */
module StoreRuns {
  import opened Crc
  import opened Bytes
  import opened Domain
  import opened Records
  import opened Journal
  import opened Store

  /** The memory of the process: none, open but its boot record not yet durable, or open. */
  datatype Process = Down | Booting(mem: Mem) | Up(mem: Mem)

  /**
   * The disk (snapshot register and journal bytes), the process, and the history: the durable records so far, how
   * many of them the journal no longer holds, the record in flight and how many of its bytes a crash left behind.
   * The checkpoint is half done between the replacement of the snapshot and the truncation of the journal.
   */
  datatype System = System(
    snapshot: Option<Durable>, journal: seq<byte>, process: Process,
    log: seq<Entry>, base: nat, pending: Option<Entry>, written: nat, halfDone: bool)

  datatype Event =
    | Begin(kind: nat, what: Payload)
    | Ack
    | Replace
    | Truncate
    | Crash(kept: nat)
    | Open(boot: nat, incarnation: nat, now: int, policy: Policy)

  function Fresh(): System {
    System(None, [], Down, [], 0, None, 0, false)
  }

  // ---- opening ----

  datatype Recovery = Refusal(why: Outcome) | Recovered(mem: Mem, journal: seq<byte>)

  /** What open reads back: the snapshot, then the journal behind it, whose torn tail is cut off. */
  function Recover(c: Config, snapshot: Option<Durable>, journal: seq<byte>): Recovery {
    if snapshot.Some? && (!SnapshotFits(c, snapshot.value) || |snapshot.value.lineage| > c.maxLineage)
    then Refusal(Oversized)
    else
      var s := if snapshot.Some? then snapshot.value else Blank();
      var scan := ScanJournal(c.bounds, Visitor(c, s.snapshotSeq), journal, s.snapshotSeq + 1, Mem(s, s.snapshotSeq));
      JournalWithin(c.bounds, Visitor(c, s.snapshotSeq), journal, s.snapshotSeq + 1, Mem(s, s.snapshotSeq));
      if scan.outcome != Ok then Refusal(scan.outcome)
      else Recovered(scan.state, if scan.torn then journal[..scan.valid] else journal)
  }

  function Inherited(l: seq<LineageEntry>): seq<LineageEntry> {
    seq(|l|, i requires 0 <= i < |l| => l[i].(prior := true))
  }

  /** The incarnation boundary: counters and epoch move on, and every entry becomes history. */
  function Advance(m: Mem): Mem {
    m.(state := m.state.(bootCount := m.state.bootCount + 1, openCount := m.state.openCount + 1,
                         epoch := m.state.epoch + 1, lineage := Inherited(m.state.lineage)))
  }

  function BootEntry(c: Config, m: Mem, boot: nat, incarnation: nat, now: int, policy: Policy): Entry {
    Entry(BOOT, m.lastSeq + 1,
          BootPayload(boot, incarnation, m.state.epoch, now, m.state.bootCount, m.state.openCount,
                      policy.version, c.fingerprint(policy)))
  }

  // ---- the steps ----

  /** The payload fits its writer, and the sequence number the record header. */
  predicate Storable(c: Config, e: Entry) {
    Encodable(c, e.what) && Representable(RecOf(c, e)) && e.number + 1 < U64
  }

  predicate SnapshotFits(c: Config, d: Durable) {
    c.size(d) <= c.maxSnapshot
  }

  /** The record types the store itself commits. */
  predicate Committed(e: Entry) {
    && Matches(e.kind, e.what)
    && e.kind != RESTORATION_COMMIT && e.kind != EVIDENCE_LINEAGE && e.kind != EPOCH_ADVANCE
  }

  function Started(c: Config, s: System, e: Entry): System {
    if Storable(c, e) && |s.journal| < c.bounds.bytes then s.(pending := Some(e)) else s
  }

  /** The snapshot written at a checkpoint. */
  function Snap(m: Mem): Durable {
    m.state.(snapshotSeq := m.lastSeq)
  }

  /** The durable history a recovered state stands for: a record counts once all its bytes are there. */
  function Durably(c: Config, s: System): seq<Entry> {
    if s.pending.Some? && s.written == |Encode(RecOf(c, s.pending.value))| then s.log + [s.pending.value] else s.log
  }

  function AfterRecovery(c: Config, s: System, r: Recovery): System
    requires r.Recovered?
  {
    System(s.snapshot, r.journal, Down, Durably(c, s), if s.snapshot.Some? then s.snapshot.value.snapshotSeq else 0,
           None, 0, false)
  }

  function Opened(c: Config, s: System, e: Event): System
    requires e.Open?
  {
    var r := Recover(c, s.snapshot, s.journal);
    if r.Refusal? then s
    else
      var t := AfterRecovery(c, s, r);
      if e.boot == 0 || e.incarnation == 0 then t
      else
        var m := Advance(r.mem);
        var b := BootEntry(c, m, e.boot, e.incarnation, e.now, e.policy);
        if Storable(c, b) && |t.journal| < c.bounds.bytes then t.(process := Booting(m), pending := Some(b)) else t
  }

  function Do(c: Config, s: System, e: Event): System {
    match e
    case Begin(kind, what) =>
      if !s.process.Up? || s.pending.Some? || s.halfDone then s
      else
        var n := Entry(kind, s.process.mem.lastSeq + 1, what);
        if !Committed(n) || kind == BOOT || kind == CHECKPOINT then s
        else Started(c, s, n)
    case Ack =>
      if s.process.Down? || s.pending.None? then s
      else
        var n := s.pending.value;
        s.(journal := s.journal + Encode(RecOf(c, n)), log := s.log + [n], pending := None,
           process := Up(Mem(Live(c, s.process.mem.state, n).0, n.number)))
    case Replace =>
      if !s.process.Up? || s.pending.Some? || s.halfDone || !SnapshotFits(c, Snap(s.process.mem)) then s
      else s.(snapshot := Some(Snap(s.process.mem)), halfDone := true)
    case Truncate =>
      if !s.process.Up? || !s.halfDone then s
      else
        var m := s.process.mem;
        Started(c, s.(journal := [], base := m.lastSeq, halfDone := false),
                Entry(CHECKPOINT, m.lastSeq + 1, CheckpointPayload(m.lastSeq, m.state.epoch)))
    case Crash(kept) =>
      if s.process.Down? then s
      else if s.pending.None? then s.(process := Down)
      else
        var bytes := Encode(RecOf(c, s.pending.value));
        var k := if kept <= |bytes| then kept else |bytes|;
        s.(process := Down, journal := s.journal + bytes[..k], written := k)
    case Open(_, _, _, _) =>
      if !s.process.Down? then s else Opened(c, s, e)
  }

  function Run(c: Config, s: System, events: seq<Event>): System
    decreases |events|
  {
    if events == [] then s else Run(c, Do(c, s, events[0]), events[1..])
  }

  // ---- the invariant ----

  /** A record fit to be the next one of a history. */
  ghost predicate Proper(c: Config, k: Core, number: nat, e: Entry) {
    && e.number == number && Committed(e) && Storable(c, e)
    && (e.what.BootPayload? ==> e.what.epoch == k.epoch + 1)
    && (e.what.CheckpointPayload? ==> e.what.snapshotSeq < number)
  }

  ghost predicate ProperLog(c: Config, log: seq<Entry>) {
    forall i :: 0 <= i < |log| ==> Proper(c, Meaning(c, log[..i]), i + 1, log[i])
  }

  function RecsOf(c: Config, log: seq<Entry>): (rs: seq<Rec>)
    ensures |rs| == |log|
  {
    seq(|log|, i requires 0 <= i < |log| => RecOf(c, log[i]))
  }

  /** The bytes a crash left of the record in flight. */
  function Part(c: Config, s: System): seq<byte> {
    if s.pending.None? then []
    else
      var bytes := Encode(RecOf(c, s.pending.value));
      if s.written <= |bytes| then bytes[..s.written] else bytes
  }

  ghost predicate SnapshotOk(c: Config, s: System) {
    match s.snapshot
    case None => s.base == 0 && !s.halfDone
    case Some(d) =>
      && d.snapshotSeq == (if s.halfDone then |s.log| else s.base) <= |s.log|
      && CoreOf(d) == Meaning(c, s.log[..d.snapshotSeq]) && |d.lineage| <= c.maxLineage && SnapshotFits(c, d)
  }

  ghost predicate ProcessOk(c: Config, s: System) {
    match s.process
    case Down => true
    case Up(m) => s.written == 0 && m.lastSeq == |s.log| && CoreOf(m.state) == Meaning(c, s.log)
      && |m.state.lineage| <= c.maxLineage
    case Booting(m) =>
      && s.written == 0 && m.lastSeq == |s.log| && s.pending.Some? && s.pending.value.what.BootPayload?
      && CoreOf(m.state) == Means(c, Meaning(c, s.log), s.pending.value) && |m.state.lineage| <= c.maxLineage
  }

  ghost predicate PendingOk(c: Config, s: System) {
    match s.pending
    case None => s.written == 0
    case Some(e) =>
      && Proper(c, Meaning(c, s.log), |s.log| + 1, e) && !s.halfDone && s.written <= |Encode(RecOf(c, e))|
      && (s.process.Up? ==> !e.what.BootPayload?)
  }

  /** The journal is the records since the snapshot and what a crash left of the next one. */
  ghost predicate JournalOk(c: Config, s: System) {
    s.base <= |s.log| && s.journal == EncodeAll(RecsOf(c, s.log[s.base..])) + Part(c, s)
  }

  ghost predicate Good(c: Config, s: System) {
    ProperLog(c, s.log) && JournalOk(c, s) && SnapshotOk(c, s) && ProcessOk(c, s) && PendingOk(c, s)
  }

  // ---- replay ----

  /** Every record of the history from i on is one replay takes. */
  ghost predicate Accepted(c: Config, log: seq<Entry>, i: nat) {
    forall j :: i <= j < |log| ==> Accepts(c, Meaning(c, log[..j]), log[j])
  }

  /** A recovered or snapshotted state stands for the first n records. */
  ghost predicate StandsFor(c: Config, m: Mem, log: seq<Entry>, n: nat) {
    n <= |log| && m.lastSeq == n && CoreOf(m.state) == Meaning(c, log[..n]) && |m.state.lineage| <= c.maxLineage
  }

  lemma MeaningOfPrefix(c: Config, log: seq<Entry>, i: nat)
    requires i < |log|
    ensures Meaning(c, log[..i + 1]) == Means(c, Meaning(c, log[..i]), log[i])
  {
    hide Means, CoreOf;
    assert log[..i + 1] == log[..i] + [log[i]];
    MeaningNext(c, log[..i], log[i]);
  }

  lemma RecsOfTail(c: Config, log: seq<Entry>, i: nat)
    requires i < |log|
    ensures RecsOf(c, log[i..]) != [] && RecsOf(c, log[i..])[0] == RecOf(c, log[i])
    ensures RecsOf(c, log[i..])[1..] == RecsOf(c, log[i + 1..])
  {
    assert RecsOf(c, log[i..])[1..] == RecsOf(c, log[i + 1..]);
  }

  lemma ProperAt(c: Config, log: seq<Entry>, i: nat)
    requires ProperLog(c, log) && i < |log|
    ensures Proper(c, Meaning(c, log[..i]), i + 1, log[i])
  {
    hide Proper, Meaning;
  }

  /** What the record at i adds to the total of fences issued when it is replayed. */
  function Adds(c: Config, log: seq<Entry>, i: nat): nat
    requires i < |log|
  {
    if Issues(c, Meaning(c, log[..i]).fences, log[i]) then 1 else 0
  }

  /** The intent records from i on that found room. */
  function IntentsFrom(c: Config, log: seq<Entry>, i: nat): nat
    decreases |log| - i
  {
    if i >= |log| then 0 else Adds(c, log, i) + IntentsFrom(c, log, i + 1)
  }

  /** Replaying one record moves on by one. */
  lemma VisitSteps(c: Config, m: Mem, log: seq<Entry>, i: nat)
    requires Lawful(c) && ProperLog(c, log) && i < |log| && StandsFor(c, m, log, i) && m.state.snapshotSeq <= i
    ensures var (t, o) := Visitor(c, m.state.snapshotSeq)(m, RecOf(c, log[i]));
            && (o == Ok <==> Accepts(c, Meaning(c, log[..i]), log[i]))
            && (o == Ok ==> StandsFor(c, t, log, i + 1) && t.state.snapshotSeq == m.state.snapshotSeq
                            && t.state.fencesTotal == m.state.fencesTotal + Adds(c, log, i))
  {
    hide Means, Meaning, Issues, CoreOf, Apply, Accepts, Matches, Encodable, Representable;
    ProperAt(c, log, i);
    hide ProperLog, Lawful;
    ApplySteps(c, m, log[i]);
    TotalsAgree(c, m, log[i]);
    CoreFields(m.state);
    MeaningOfPrefix(c, log, i);
  }

  lemma AcceptedStep(c: Config, log: seq<Entry>, i: nat)
    requires i < |log|
    ensures Accepted(c, log, i) <==> Accepts(c, Meaning(c, log[..i]), log[i]) && Accepted(c, log, i + 1)
  {
    hide Accepts, Meaning;
  }

  /** Replay of the records behind a snapshot rebuilds their meaning, or refuses one. */
  lemma {:induction false} FoldMeans(c: Config, m: Mem, log: seq<Entry>, i: nat)
    requires Lawful(c) && ProperLog(c, log) && StandsFor(c, m, log, i) && m.state.snapshotSeq <= i
    ensures var (t, o) := Fold(Visitor(c, m.state.snapshotSeq), m, RecsOf(c, log[i..]));
            && (o == Ok <==> Accepted(c, log, i))
            && (o == Ok ==> StandsFor(c, t, log, |log|) && t.state.snapshotSeq == m.state.snapshotSeq
                            && t.state.fencesTotal == m.state.fencesTotal + IntentsFrom(c, log, i))
    decreases |log| - i
  {
    hide Lawful, ProperLog, StandsFor, Accepts, Accepted, RecOf, RecsOf, Visitor, Adds;
    StandsWithin(c, m, log, i);
    if i == |log| {
      NothingLeft(c, log);
    } else {
      RecsOfTail(c, log, i);
      VisitSteps(c, m, log, i);
      AcceptedStep(c, log, i);
      var (t, o) := Visitor(c, m.state.snapshotSeq)(m, RecOf(c, log[i]));
      if o == Ok {
        FoldMeans(c, t, log, i + 1);
      }
    }
  }

  lemma StandsWithin(c: Config, m: Mem, log: seq<Entry>, i: nat)
    requires StandsFor(c, m, log, i)
    ensures i <= |log|
  {}

  lemma NothingLeft(c: Config, log: seq<Entry>)
    ensures RecsOf(c, log[|log|..]) == [] && Accepted(c, log, |log|)
  {}

  // ---- recovery ----

  lemma EncodeAllAppend(rs: seq<Rec>, r: Rec)
    ensures EncodeAll(rs + [r]) == EncodeAll(rs) + Encode(r)
  {
    hide Encode;
    if rs == [] {
      assert EncodeAll([r]) == Encode(r) + EncodeAll([]);
      assert rs + [r] == [r];
    } else {
      EncodeAllAppend(rs[1..], r);
      assert (rs + [r])[1..] == rs[1..] + [r];
    }
  }

  lemma RecsConsecutive(c: Config, log: seq<Entry>, i: nat)
    requires ProperLog(c, log) && i <= |log|
    ensures Consecutive(RecsOf(c, log[i..]), i + 1)
  {
    hide Meaning, Matches, Representable;
    forall j | 0 <= j < |log| - i
      ensures Representable(RecsOf(c, log[i..])[j]) && RecsOf(c, log[i..])[j].number == i + 1 + j
    {
      ProperAt(c, log, i + j);
      assert log[i..][j] == log[i + j];
    }
  }

  /** The state a recovery starts replaying from. */
  function Base(snapshot: Option<Durable>): Mem {
    if snapshot.Some? then Mem(snapshot.value, snapshot.value.snapshotSeq) else Mem(Blank(), 0)
  }

  ghost predicate RecoveredAs(c: Config, snapshot: Option<Durable>, r: Recovery, log: seq<Entry>, base: nat) {
    && r.Recovered? && StandsFor(c, r.mem, log, |log|) && base <= |log|
    && r.journal == EncodeAll(RecsOf(c, log[base..]))
    && r.mem.state.fencesTotal == Base(snapshot).state.fencesTotal + IntentsFrom(c, log, base)
  }

  /** The read bounds of an opening: bytes, records, payloads, and what a torn record already shows of its length. */
  ghost predicate Within(c: Config, journal: seq<byte>, rs: seq<Rec>, next: Rec, torn: nat) {
    && |journal| <= c.bounds.bytes && |rs| <= c.bounds.records && PayloadsWithin(c.bounds.payload, rs)
    && (torn < 20 || |next.payload| <= c.bounds.payload)
  }

  /**
   * The durable records and any cut of the next one: recovered exactly, or refused; refused exactly outside the bounds.
   */
  lemma RecoverWritten(c: Config, snapshot: Option<Durable>, journal: seq<byte>, log: seq<Entry>, base: nat, next: Rec,
                       t: seq<byte>)
    requires Lawful(c) && ProperLog(c, log) && StandsFor(c, Base(snapshot), log, base)
             && Base(snapshot).state.snapshotSeq == base
    requires snapshot.Some? ==> SnapshotFits(c, snapshot.value)
    requires Representable(next) && next.number == |log| + 1 && Cut(next, t)
    requires journal == EncodeAll(RecsOf(c, log[base..])) + t
    ensures var r := Recover(c, snapshot, journal);
            && (r.Recovered? ==> RecoveredAs(c, snapshot, r, log, base))
            && (r.Recovered? <==> Within(c, journal, RecsOf(c, log[base..]), next, |t|) && Accepted(c, log, base))
  {
    hide Lawful, ProperLog, Accepted, RecsOf, Meaning, EncodeAll, ScanFrom, Cut, Visitor, Representable, Consecutive;
    hide Encode, IntentsFrom;
    StandsWithin(c, Base(snapshot), log, base);
    var m, rs := Base(snapshot), RecsOf(c, log[base..]);
    RecsConsecutive(c, log, base);
    FoldMeans(c, m, log, base);
    hide Fold;
    ScanWritten(c.bounds, Visitor(c, base), rs, base + 1, next, t, Start(m));
    assert (EncodeAll(rs) + t)[..|EncodeAll(rs)|] == EncodeAll(rs);
    assert t == [] ==> EncodeAll(rs) + t == EncodeAll(rs);
  }

  lemma ProperAppend(c: Config, log: seq<Entry>, e: Entry)
    requires ProperLog(c, log) && Proper(c, Meaning(c, log), |log| + 1, e)
    ensures ProperLog(c, log + [e])
  {
    hide ProperLog, Proper, Meaning;
    forall i | 0 <= i < |log + [e]|
      ensures Proper(c, Meaning(c, (log + [e])[..i]), i + 1, (log + [e])[i])
    {
      ProperOf(c, log, e, i);
    }
    ProperAll(c, log + [e]);
  }

  lemma ProperOf(c: Config, log: seq<Entry>, e: Entry, i: nat)
    requires ProperLog(c, log) && Proper(c, Meaning(c, log), |log| + 1, e) && i <= |log|
    ensures Proper(c, Meaning(c, (log + [e])[..i]), i + 1, (log + [e])[i])
  {
    hide Proper, Meaning, ProperLog;
    assert (log + [e])[..i] == log[..i];
    if i < |log| {
      ProperAt(c, log, i);
    } else {
      assert log[..i] == log;
    }
  }

  lemma ProperAll(c: Config, log: seq<Entry>)
    requires forall i :: 0 <= i < |log| ==> Proper(c, Meaning(c, log[..i]), i + 1, log[i])
    ensures ProperLog(c, log)
  {
    hide Proper, Meaning;
  }

  lemma ProperRoom(c: Config, log: seq<Entry>)
    requires ProperLog(c, log)
    ensures |log| + 1 < U64
  {
    hide Meaning;
    if log != [] {
      ProperAt(c, log, |log| - 1);
    }
  }

  lemma DurablyProper(c: Config, s: System)
    requires ProperLog(c, s.log) && PendingOk(c, s)
    ensures ProperLog(c, Durably(c, s)) && s.log <= Durably(c, s)
  {
    hide ProperLog, Proper, Encode, RecOf;
    if s.pending.Some? {
      ProperAppend(c, s.log, s.pending.value);
    }
  }

  lemma JournalAppend(c: Config, log: seq<Entry>, base: nat, e: Entry)
    requires base <= |log|
    ensures EncodeAll(RecsOf(c, (log + [e])[base..])) == EncodeAll(RecsOf(c, log[base..])) + Encode(RecOf(c, e))
  {
    hide Encode, EncodeAll, RecOf;
    EncodeAllAppend(RecsOf(c, log[base..]), RecOf(c, e));
    assert RecsOf(c, (log + [e])[base..]) == RecsOf(c, log[base..]) + [RecOf(c, e)];
  }

  lemma BaseStands(c: Config, s: System, log: seq<Entry>)
    requires SnapshotOk(c, s) && s.log <= log && c.maxLineage > 0
    ensures var n := if s.halfDone then |s.log| else s.base;
            && StandsFor(c, Base(s.snapshot), log, n) && Base(s.snapshot).state.snapshotSeq == n
            && (s.snapshot.Some? ==> SnapshotFits(c, s.snapshot.value))
  {
    hide Means;
    if s.snapshot.Some? {
      assert log[..s.snapshot.value.snapshotSeq] == s.log[..s.snapshot.value.snapshotSeq];
    } else {
      assert log[..0] == [];
    }
  }

  /** How much of a record that did not become durable a crash left behind. */
  function Torn(c: Config, s: System): nat {
    if s.pending.Some? && Durably(c, s) == s.log then s.written else 0
  }

  /** What an opening would read is within its bounds. */
  ghost predicate Readable(c: Config, s: System) {
    var log := Durably(c, s);
    && |s.journal| <= c.bounds.bytes && s.base <= |log| && |log| - s.base <= c.bounds.records
    && PayloadsWithin(c.bounds.payload, RecsOf(c, log[s.base..]))
    && (Torn(c, s) < 20 || |c.enc(s.pending.value.what)| <= c.bounds.payload)
  }

  /** Every fence record of the history from i on found room in the table. */
  ghost predicate Roomy(c: Config, log: seq<Entry>, i: nat) {
    forall j :: i <= j < |log| && log[j].what.FencePayload? ==> Room(c, Meaning(c, log[..j]).fences, log[j].what.fence)
  }

  /** Of a proper history replay refuses nothing but a fence record that found the table full. */
  lemma AcceptedIsRoomy(c: Config, log: seq<Entry>, i: nat)
    requires ProperLog(c, log)
    ensures Accepted(c, log, i) <==> Roomy(c, log, i)
  {
    hide Meaning, Room, Storable, ProperLog;
    forall j | i <= j < |log|
      ensures Accepts(c, Meaning(c, log[..j]), log[j]) <==>
              (log[j].what.FencePayload? ==> Room(c, Meaning(c, log[..j]).fences, log[j].what.fence))
    {
      ProperAt(c, log, j);
    }
  }

  /**
   * After any crash outside the checkpoint's half-done state, opening rebuilds exactly the durable history, or refuses;
   * it refuses exactly when the bounds were overstepped or a fence record since the snapshot found the table full.
   */
  lemma RecoverExact(c: Config, s: System)
    requires Lawful(c) && Good(c, s) && !s.halfDone && (s.process.Down? || s.pending.None?)
    ensures var r := Recover(c, s.snapshot, s.journal);
            && (r.Recovered? ==> RecoveredAs(c, s.snapshot, r, Durably(c, s), s.base))
            && (r.Recovered? <==> Readable(c, s) && Roomy(c, Durably(c, s), s.base))
  {
    hide ProperLog, Recover, RecsOf, Encode, EncodeAll, Accepted, Roomy, StandsFor, SnapshotOk, ProcessOk, Meaning;
    hide Lawful, RecoveredAs, Base;
    var log := Durably(c, s);
    DurablyProper(c, s);
    Positive(c);
    BaseStands(c, s, log);
    ProperRoom(c, log);
    AcceptedIsRoomy(c, log, s.base);
    RecordsBehind(c, log, s.base);
    if s.pending.Some? && log == s.log {
      PartLength(c, s);
      RecoverWritten(c, s.snapshot, s.journal, log, s.base, RecOf(c, s.pending.value), Part(c, s));
    } else {
      if s.pending.Some? {
        JournalAppend(c, s.log, s.base, s.pending.value);
        WholePart(c, s);
      }
      var none := Rec(BOOT, |log| + 1, []);
      assert s.journal == EncodeAll(RecsOf(c, log[s.base..])) + [];
      EmptyCut(none);
      RecoverWritten(c, s.snapshot, s.journal, log, s.base, none, []);
    }
  }

  lemma RecordsBehind(c: Config, log: seq<Entry>, base: nat)
    requires base <= |log|
    ensures |RecsOf(c, log[base..])| == |log| - base
  {}

  lemma PartLength(c: Config, s: System)
    requires s.pending.Some? && s.written <= |Encode(RecOf(c, s.pending.value))|
    ensures |Part(c, s)| == s.written
  {
    hide Encode;
  }

  lemma Positive(c: Config)
    requires Lawful(c)
    ensures c.maxLineage > 0
  {}

  lemma EmptyCut(r: Rec)
    ensures Cut(r, [])
  {}

  lemma WholePart(c: Config, s: System)
    requires s.pending.Some? && s.written == |Encode(RecOf(c, s.pending.value))|
    ensures Part(c, s) == Encode(RecOf(c, s.pending.value))
  {
    hide Encode;
  }

  lemma ScanOutOfOrder(c: Config, r: Rec, rest: seq<byte>, expected: nat, snapshotSeq: nat, acc: Scan<Mem>)
    requires Representable(r) && r.number != expected
    ensures ScanFrom(c.bounds, Visitor(c, snapshotSeq), Encode(r) + rest, expected, acc).outcome != Ok
  {
    hide Look, Encode, Representable, Visitor;
    LookOutOfOrder(c.bounds.payload, r, rest, expected);
  }

  /**
   * A crash between the replacement of the snapshot and the truncation of the journal: opening refuses whenever the
   * journal holds a record, so that the records the snapshot holds too are never skipped over; otherwise it recovers.
   */
  lemma RecoverHalfDone(c: Config, s: System)
    requires Lawful(c) && Good(c, s) && s.halfDone
    ensures var r := Recover(c, s.snapshot, s.journal);
            && (r.Recovered? <==> s.base == |s.log|)
            && (r.Recovered? ==> RecoveredAs(c, s.snapshot, r, s.log, |s.log|))
  {
    hide ProperLog, RecsOf, Encode, EncodeAll, Accepted, StandsFor, ProcessOk, Meaning, Lawful, RecoveredAs, RecOf;
    hide ScanFrom, Visitor, CoreOf, Proper, Recover;
    assert s.journal == EncodeAll(RecsOf(c, s.log[s.base..]));
    RecsConsecutive(c, s.log, s.base);
    if s.base < |s.log| {
      RecsOfTail(c, s.log, s.base);
      var rs := RecsOf(c, s.log[s.base..]);
      EncodeAllStep(rs, []);
      HalfDoneRefused(c, s.snapshot.value, rs[0], EncodeAll(rs[1..]) + [], s.journal);
    } else {
      Positive(c);
      BaseStands(c, s, s.log);
      ProperRoom(c, s.log);
      var none := Rec(BOOT, |s.log| + 1, []);
      EmptyCut(none);
      EmptyJournal(c, s.log);
      RecoverWritten(c, s.snapshot, s.journal, s.log, |s.log|, none, []);
      NothingLeft(c, s.log);
      NoRecords(c, s.journal, none);
    }
  }

  lemma NoRecords(c: Config, journal: seq<byte>, next: Rec)
    requires journal == []
    ensures Within(c, journal, [], next, 0)
  {}

  lemma HalfDoneRefused(c: Config, d: Durable, r: Rec, rest: seq<byte>, journal: seq<byte>)
    requires Representable(r) && r.number <= d.snapshotSeq && journal == Encode(r) + rest
    ensures Recover(c, Some(d), journal).Refusal?
  {
    hide ScanFrom, Visitor, Encode, Representable;
    ScanOutOfOrder(c, r, rest, d.snapshotSeq + 1, d.snapshotSeq, Start(Mem(d, d.snapshotSeq)));
  }

  // ---- every step keeps the invariant ----

  lemma StartedGood(c: Config, s: System, e: Entry)
    requires Good(c, s) && s.process.Up? && s.pending.None? && !s.halfDone
    requires e.number == |s.log| + 1 && Committed(e) && !e.what.BootPayload?
    requires e.what.CheckpointPayload? ==> e.what.snapshotSeq < e.number
    ensures Good(c, Started(c, s, e))
  {
    hide ProperLog, RecsOf, Encode, EncodeAll, Meaning, Means, Matches, Representable, CoreOf;
    if Storable(c, e) && |s.journal| < c.bounds.bytes {
      NoPart(c, s, e);
    }
  }

  lemma NoPart(c: Config, s: System, e: Entry)
    requires s.pending.None? && s.written == 0
    ensures Part(c, s.(pending := Some(e))) == [] == Part(c, s)
  {
    hide Encode;
  }

  lemma BeginGood(c: Config, s: System, kind: nat, what: Payload)
    requires Good(c, s)
    ensures Good(c, Do(c, s, Begin(kind, what)))
  {
    hide ProperLog, RecsOf, Encode, EncodeAll, Meaning, Means, Storable, Started, JournalOk, SnapshotOk, CoreOf;
    hide PendingOk;
    if s.process.Up? && s.pending.None? && !s.halfDone {
      var n := Entry(kind, s.process.mem.lastSeq + 1, what);
      if Committed(n) && kind != BOOT && kind != CHECKPOINT {
        StartedGood(c, s, n);
      }
    }
  }

  /** A record acknowledged: its meaning is added, live and durably. */
  lemma AckGood(c: Config, s: System)
    requires Lawful(c) && Good(c, s)
    ensures Good(c, Do(c, s, Ack))
  {
    hide ProperLog, RecsOf, Encode, EncodeAll, Meaning, Means, Storable, CoreOf, Proper, Lawful, Live, JournalOk, RecOf;
    if !s.process.Down? && s.pending.Some? {
      var n := s.pending.value;
      Positive(c);
      ProperAppend(c, s.log, n);
      AckJournal(c, s, n);
      MeaningNext(c, s.log, n);
      AckLive(c, s, n);
      AckSnapshot(c, s, n);
    }
  }

  lemma AckJournal(c: Config, s: System, e: Entry)
    requires JournalOk(c, s) && s.pending == Some(e) && s.written == 0
    ensures Part(c, s) == [] && s.journal == EncodeAll(RecsOf(c, s.log[s.base..]))
    ensures forall p :: JournalOk(c,
                                  s.(journal := s.journal + Encode(RecOf(c, e)), log := s.log + [e], pending := None,
                                     process := p))
  {
    hide Encode, RecsOf, EncodeAll, RecOf;
    JournalAppend(c, s.log, s.base, e);
    assert s.journal + [] == s.journal;
  }

  lemma AckLive(c: Config, s: System, e: Entry)
    requires c.maxLineage > 0 && ProcessOk(c, s) && PendingOk(c, s) && s.pending == Some(e) && !s.process.Down?
    ensures var t := Live(c, s.process.mem.state, e).0;
            CoreOf(t) == Means(c, Meaning(c, s.log), e) && |t.lineage| <= c.maxLineage && e.number == |s.log| + 1
  {
    hide Meaning, Means, CoreOf, Storable;
    if s.process.Up? {
      LiveSteps(c, s.process.mem.state, e);
    }
  }

  lemma AckSnapshot(c: Config, s: System, e: Entry)
    requires SnapshotOk(c, s) && !s.halfDone
    ensures SnapshotOk(c, s.(log := s.log + [e]))
  {
    hide Meaning, CoreOf;
    if s.snapshot.Some? {
      var n := s.snapshot.value.snapshotSeq;
      assert (s.log + [e])[..n] == s.log[..n];
    }
  }

  lemma ReplaceGood(c: Config, s: System)
    requires Good(c, s)
    ensures Good(c, Do(c, s, Replace))
  {
    hide ProperLog, RecsOf, Encode, EncodeAll, Meaning, Proper;
    assert s.log[..|s.log|] == s.log;
  }

  lemma TruncateGood(c: Config, s: System)
    requires Lawful(c) && Good(c, s)
    ensures Good(c, Do(c, s, Truncate))
  {
    hide Good, Lawful, Started, Committed, Meaning;
    if s.process.Up? && s.halfDone {
      var m := s.process.mem;
      var e := Entry(CHECKPOINT, m.lastSeq + 1, CheckpointPayload(m.lastSeq, m.state.epoch));
      Truncated(c, s);
      CheckpointCommitted(e);
      StartedGood(c, s.(journal := [], base := m.lastSeq, halfDone := false), e);
    }
  }

  /** The journal emptied: all its records are in the snapshot. */
  lemma Truncated(c: Config, s: System)
    requires Good(c, s) && s.process.Up? && s.halfDone
    ensures Good(c, s.(journal := [], base := s.process.mem.lastSeq, halfDone := false))
    ensures s.process.mem.lastSeq == |s.log| && s.pending.None?
  {
    hide ProperLog, RecsOf, Encode, EncodeAll, Meaning, Proper, CoreOf;
    EmptyJournal(c, s.log);
  }

  lemma CheckpointCommitted(e: Entry)
    requires e.kind == CHECKPOINT && e.what.CheckpointPayload?
    ensures Committed(e)
  {}

  lemma EmptyJournal(c: Config, log: seq<Entry>)
    ensures EncodeAll(RecsOf(c, log[|log|..])) == []
  {}

  lemma CrashGood(c: Config, s: System, kept: nat)
    requires Good(c, s)
    ensures Good(c, Do(c, s, Crash(kept)))
  {
    hide ProperLog, RecsOf, Encode, EncodeAll, Meaning, Proper, CoreOf, RecOf;
    if !s.process.Down? && s.pending.Some? {
      AckJournal(c, s, s.pending.value);
    }
  }

  lemma AdvanceMeans(c: Config, m: Mem, boot: nat, incarnation: nat, now: int, policy: Policy)
    ensures var a := Advance(m);
            CoreOf(a.state) == Means(c, CoreOf(m.state), BootEntry(c, a, boot, incarnation, now, policy))
  {
    assert Lines(Inherited(m.state.lineage)) == Lines(m.state.lineage);
  }

  lemma OpenGood(c: Config, s: System, e: Event)
    requires Lawful(c) && Good(c, s) && e.Open? && s.process.Down?
    ensures Good(c, Opened(c, s, e))
  {
    hide ProperLog, RecsOf, Encode, EncodeAll, Meaning, Means, Proper, CoreOf, Lawful, Recover, JournalOk, ProcessOk;
    hide SnapshotOk, PendingOk, Storable, StandsFor, Advance, BootEntry, Durably;
    var r := Recover(c, s.snapshot, s.journal);
    if r.Recovered? {
      OpenRecovers(c, s);
      RecoveryGood(c, s, r);
      var t := AfterRecovery(c, s, r);
      var m := Advance(r.mem);
      var b := BootEntry(c, m, e.boot, e.incarnation, e.now, e.policy);
      if Storable(c, b) {
        BootGood(c, t, r.mem, b, e);
      }
    }
  }

  /** Whether or not the checkpoint was half done, what an opening recovers is the durable history. */
  lemma OpenRecovers(c: Config, s: System)
    requires Lawful(c) && Good(c, s) && s.process.Down?
    ensures var r := Recover(c, s.snapshot, s.journal);
            r.Recovered? ==> RecoveredAs(c, s.snapshot, r, Durably(c, s),
                                         if s.snapshot.Some? then s.snapshot.value.snapshotSeq else 0)
    ensures ProperLog(c, Durably(c, s))
  {
    hide ProperLog, RecoveredAs, Recover, JournalOk, ProcessOk, Proper, Encode;
    DurablyProper(c, s);
    if s.halfDone {
      RecoverHalfDone(c, s);
    } else {
      RecoverExact(c, s);
    }
  }

  lemma RecoveryGood(c: Config, s: System, r: Recovery)
    requires Lawful(c) && SnapshotOk(c, s) && PendingOk(c, s) && ProperLog(c, s.log) && ProperLog(c, Durably(c, s))
             && r.Recovered?
    requires RecoveredAs(c, s.snapshot, r, Durably(c, s), if s.snapshot.Some? then s.snapshot.value.snapshotSeq else 0)
    ensures Good(c, AfterRecovery(c, s, r))
  {
    hide ProperLog, RecsOf, Encode, EncodeAll, Meaning, Means, Proper, CoreOf, Lawful, StandsFor, Durably;
    DurablyProper(c, s);
    var log := Durably(c, s);
    if s.snapshot.Some? {
      assert log[..s.snapshot.value.snapshotSeq] == s.log[..s.snapshot.value.snapshotSeq];
    }
    var part := Part(c, AfterRecovery(c, s, r));
    assert r.journal + part == r.journal;
  }

  lemma BootGood(c: Config, t: System, m: Mem, b: Entry, e: Event)
    requires Good(c, t) && t.process.Down? && t.pending.None? && StandsFor(c, m, t.log, |t.log|) && e.Open?
             && !t.halfDone
    requires b == BootEntry(c, Advance(m), e.boot, e.incarnation, e.now, e.policy) && Storable(c, b)
    ensures Good(c, t.(process := Booting(Advance(m)), pending := Some(b)))
  {
    hide ProperLog, RecsOf, Encode, EncodeAll, Meaning, Means, CoreOf, Storable, JournalOk;
    AdvanceMeans(c, m, e.boot, e.incarnation, e.now, e.policy);
    assert t.log[..|t.log|] == t.log;
    BootJournal(c, t, b);
    EpochOfCore(m.state);
  }

  lemma BootJournal(c: Config, t: System, b: Entry)
    requires JournalOk(c, t) && t.pending.None? && t.written == 0
    ensures forall p :: JournalOk(c, t.(process := p, pending := Some(b)))
  {
    hide RecsOf, EncodeAll, Encode;
  }

  lemma EpochOfCore(s: Durable)
    ensures CoreOf(s).epoch == s.epoch
  {}

  lemma DoGood(c: Config, s: System, e: Event)
    requires Lawful(c) && Good(c, s)
    ensures Good(c, Do(c, s, e))
  {
    hide Good, Lawful;
    match e
    case Begin(kind, what) => BeginGood(c, s, kind, what);
    case Ack => AckGood(c, s);
    case Replace => ReplaceGood(c, s);
    case Truncate => TruncateGood(c, s);
    case Crash(kept) => CrashGood(c, s, kept);
    case Open(_, _, _, _) =>
      if s.process.Down? {
        OpenGood(c, s, e);
      }
  }

  lemma FreshGood(c: Config)
    ensures Good(c, Fresh())
  {}

  /** The invariant over every run. */
  lemma {:induction false} RunGood(c: Config, s: System, events: seq<Event>)
    requires Lawful(c) && Good(c, s)
    ensures Good(c, Run(c, s, events))
    decreases |events|
  {
    hide Good, Do, Lawful;
    if events != [] {
      DoGood(c, s, events[0]);
      RunGood(c, Do(c, s, events[0]), events[1..]);
    }
  }

  // ---- what every run guarantees ----

  /** What an opening asks of the files: an untouched journal if a checkpoint was cut in half, else bounds and room. */
  ghost predicate Openable(c: Config, s: System) {
    if s.halfDone then s.base == |s.log| else Readable(c, s) && Roomy(c, Durably(c, s), s.base)
  }

  /**
   * Crash safety: after any run, an opening rebuilds exactly the durable history, or refuses; when, is said exactly.
   */
  lemma CrashSafety(c: Config, events: seq<Event>)
    requires Lawful(c)
    ensures var s := Run(c, Fresh(), events);
            var r := Recover(c, s.snapshot, s.journal);
            s.process.Down? ==>
              && (r.Recovered? <==> Openable(c, s))
              && (r.Recovered? ==> CoreOf(r.mem.state) == Meaning(c, Durably(c, s)) && r.mem.lastSeq == |Durably(c, s)|)
  {
    hide Good, Lawful, Recover, Meaning, CoreOf, Run, Fresh, Readable, Roomy, Durably, RecsOf, EncodeAll;
    FreshGood(c);
    RunGood(c, Fresh(), events);
    var s := Run(c, Fresh(), events);
    if s.process.Down? {
      OpenRecovers(c, s);
      if s.halfDone {
        RecoverHalfDone(c, s);
      } else {
        RecoverExact(c, s);
      }
      assert Durably(c, s)[..|Durably(c, s)|] == Durably(c, s);
    }
  }

  /** Replay refines live execution: at every quiet moment of a run, the files read back are the live state. */
  lemma ReplayIsLive(c: Config, events: seq<Event>)
    requires Lawful(c)
    ensures var s := Run(c, Fresh(), events);
            s.process.Up? ==> CoreOf(s.process.mem.state) == Meaning(c, s.log) && s.process.mem.lastSeq == |s.log|
    ensures var s := Run(c, Fresh(), events);
            var r := Recover(c, s.snapshot, s.journal);
            s.process.Up? && s.pending.None? && !s.halfDone ==>
              && (r.Recovered? <==> Readable(c, s) && Roomy(c, s.log, s.base))
              && (r.Recovered? ==> CoreOf(r.mem.state) == CoreOf(s.process.mem.state)
                                   && r.mem.lastSeq == s.process.mem.lastSeq)
  {
    hide Lawful, Recover, Meaning, CoreOf, Run, Fresh, Readable, Roomy, ProperLog, JournalOk, SnapshotOk, PendingOk;
    hide RecsOf, EncodeAll;
    FreshGood(c);
    RunGood(c, Fresh(), events);
    var s := Run(c, Fresh(), events);
    if s.process.Up? && s.pending.None? && !s.halfDone {
      RecoverExact(c, s);
      assert s.log[..|s.log|] == s.log;
    }
  }

  lemma DoKeepsLog(c: Config, s: System, e: Event)
    ensures s.log <= Do(c, s, e).log
  {
    hide Encode, Recover, Meaning, RecOf, Storable, Advance, CoreOf;
  }

  /** A durable record is never lost again: the history only grows. */
  lemma {:induction false} NothingLost(c: Config, s: System, events: seq<Event>)
    ensures s.log <= Run(c, s, events).log
    decreases |events|
  {
    hide Do;
    if events != [] {
      DoKeepsLog(c, s, events[0]);
      NothingLost(c, Do(c, s, events[0]), events[1..]);
    }
  }

  /** A checkpoint cut in half is refused exactly when the journal had records it did not get to drop. */
  lemma HalfDoneRefuses(c: Config, events: seq<Event>)
    requires Lawful(c)
    ensures var s := Run(c, Fresh(), events);
            s.process.Down? && s.halfDone ==> (Recover(c, s.snapshot, s.journal).Refusal? <==> s.base < |s.log|)
  {
    hide Good, Lawful, Recover, Run, Fresh;
    FreshGood(c);
    RunGood(c, Fresh(), events);
    var s := Run(c, Fresh(), events);
    if s.process.Down? && s.halfDone {
      RecoverHalfDone(c, s);
      BaseWithin(c, s);
    }
  }

  lemma BaseWithin(c: Config, s: System)
    requires Good(c, s)
    ensures s.base <= |s.log|
  {}

  /** A refused opening changes nothing, so that what refuses once refuses in every further run. */
  lemma {:induction false} RefusedForever(c: Config, s: System, events: seq<Event>)
    requires s.process.Down? && Recover(c, s.snapshot, s.journal).Refusal?
    ensures Run(c, s, events) == s
    decreases |events|
  {
    hide Recover;
    if events != [] {
      RefusedForever(c, s, events[1..]);
    }
  }

  // ---- runs that reach the refusals ----

  /** The boot record of the first opening of an empty store. */
  function FirstBoot(c: Config, e: Event): Entry
    requires e.Open?
  {
    BootEntry(c, Advance(Mem(Blank(), 0)), e.boot, e.incarnation, e.now, e.policy)
  }

  /** The memory the first opening leaves. */
  function FirstMemory(): Mem {
    Mem(Advance(Mem(Blank(), 0)).state, 1)
  }

  predicate Opens(c: Config, e: Event) {
    e.Open? && e.boot != 0 && e.incarnation != 0 && c.bounds.bytes > 0 && Storable(c, FirstBoot(c, e))
  }

  lemma NothingToRead(c: Config)
    ensures Recover(c, None, []) == Recovered(Mem(Blank(), 0), [])
  {}

  /** The first opening of an empty store and its boot record. */
  lemma FirstOpening(c: Config, e: Event)
    requires Opens(c, e)
    ensures var s := Run(c, Fresh(), [e, Ack]);
            && s.process == Up(FirstMemory()) && s.pending.None? && !s.halfDone && s.snapshot.None?
            && s.log == [FirstBoot(c, e)] && s.base == 0
            && s.journal == Encode(RecOf(c, FirstBoot(c, e)))
  {
    hide Storable, Inherited, Encode, Recover, Run;
    NothingToRead(c);
    RunTwo(c, Fresh(), e, Ack);
    assert [] + [FirstBoot(c, e)] == [FirstBoot(c, e)];
    assert [] + Encode(RecOf(c, FirstBoot(c, e))) == Encode(RecOf(c, FirstBoot(c, e)));
  }

  lemma RunTwo(c: Config, s: System, d: Event, e: Event)
    ensures Run(c, s, [d, e]) == Do(c, Do(c, s, d), e)
  {
    hide Do;
    var last: seq<Event> := [e];
    assert [d, e][1..] == last && last[1..] == [];
    assert Run(c, Do(c, s, d), last) == Run(c, Do(c, Do(c, s, d), e), []);
  }

  lemma {:induction false} RunAppend(c: Config, s: System, first: seq<Event>, then_: seq<Event>)
    ensures Run(c, s, first + then_) == Run(c, Run(c, s, first), then_)
    decreases |first|
  {
    hide Do;
    if first == [] {
      assert [] + then_ == then_;
    } else {
      RunAppend(c, Do(c, s, first[0]), first[1..], then_);
      assert (first + then_)[1..] == first[1..] + then_;
    }
  }

  /** One opening, and a checkpoint cut in half: from then on every opening is refused. */
  lemma HalfDoneReached(c: Config, e: Event, more: seq<Event>)
    requires Lawful(c) && Opens(c, e) && SnapshotFits(c, Snap(FirstMemory()))
    ensures var s := Run(c, Fresh(), [e, Ack, Replace, Crash(0)]);
            s.process.Down? && s.halfDone && s.base < |s.log| && Run(c, s, more) == s
  {
    hide Lawful, Opens, FirstBoot, FirstMemory, Recover, Run, Fresh, Encode, RecOf, Snap;
    var all := [e, Ack, Replace, Crash(0)];
    FirstOpening(c, e);
    RunAppend(c, Fresh(), [e, Ack], [Replace, Crash(0)]);
    assert [e, Ack] + [Replace, Crash(0)] == all;
    RunTwo(c, Run(c, Fresh(), [e, Ack]), Replace, Crash(0));
    HalfDoneRefuses(c, all);
    RefusedForever(c, Run(c, Fresh(), all), more);
  }

  /** The byte bound is asked before a record is appended: the record that passes it keeps every later opening out. */
  lemma BytesOvershot(c: Config, e: Event, more: seq<Event>)
    requires Lawful(c) && Opens(c, e) && |Encode(RecOf(c, FirstBoot(c, e)))| > c.bounds.bytes
    ensures var s := Run(c, Fresh(), [e, Ack, Crash(0)]);
            s.process.Down? && Recover(c, s.snapshot, s.journal).Refusal? && Run(c, s, more) == s
  {
    hide Lawful, Opens, FirstBoot, FirstMemory, Recover, Run, Fresh, Encode, RecOf, RecsOf, Roomy;
    var all := [e, Ack, Crash(0)];
    FirstOpening(c, e);
    RunAppend(c, Fresh(), [e, Ack], [Crash(0)]);
    assert [e, Ack] + [Crash(0)] == all;
    RunOne(c, Run(c, Fresh(), [e, Ack]), Crash(0));
    CrashSafety(c, all);
    RefusedForever(c, Run(c, Fresh(), all), more);
  }

  /** A commit begun and acknowledged. */
  function Commits(kind: nat, what: Payload): seq<Event> {
    [Begin(kind, what), Ack]
  }

  lemma Committing(c: Config, s: System, kind: nat, what: Payload)
    requires Good(c, s) && s.process.Up? && s.pending.None? && !s.halfDone && |s.journal| < c.bounds.bytes
    requires var e := Entry(kind, |s.log| + 1, what);
             Committed(e) && kind != BOOT && kind != CHECKPOINT && Storable(c, e)
    ensures var e := Entry(kind, |s.log| + 1, what);
            var t := Run(c, s, Commits(kind, what));
            && t.process.Up? && t.pending.None? && !t.halfDone && t.base == s.base && t.log == s.log + [e]
            && t.journal == s.journal + Encode(RecOf(c, e))
  {
    hide ProperLog, JournalOk, SnapshotOk, PendingOk, RecsOf, Encode, Live, Recover, Meaning, Means, CoreOf, Storable;
    hide Run;
    RunTwo(c, s, Begin(kind, what), Ack);
  }

  /**
   * A new fence committed to a full table: the record is durable, and from the next crash on every opening is refused.
   */
  lemma FullTableRefuses(c: Config, s: System, kind: nat, f: Fence, kept: nat, more: seq<Event>)
    requires Lawful(c) && Good(c, s) && s.process.Up? && s.pending.None? && !s.halfDone && |s.journal| < c.bounds.bytes
    requires Matches(kind, FencePayload(f)) && Storable(c, Entry(kind, |s.log| + 1, FencePayload(f)))
    requires !Room(c, Meaning(c, s.log).fences, f)
    ensures var t := Run(c, s, Commits(kind, FencePayload(f)) + [Crash(kept)]);
            t.process.Down? && Recover(c, t.snapshot, t.journal).Refusal? && Run(c, t, more) == t
  {
    hide Lawful, Good, Recover, Meaning, Storable, Run, RecsOf, Encode, EncodeAll, Readable, Room, Commits;
    var what := FencePayload(f);
    var e := Entry(kind, |s.log| + 1, what);
    Committing(c, s, kind, what);
    var u := Run(c, s, Commits(kind, what));
    RunAppend(c, s, Commits(kind, what), [Crash(kept)]);
    RunOne(c, u, Crash(kept));
    var t := Do(c, u, Crash(kept));
    RunGood(c, s, Commits(kind, what) + [Crash(kept)]);
    RecoverExact(c, t);
    BaseWithin(c, s);
    assert t.log[..|s.log|] == s.log && t.log[|s.log|] == e;
    RefusedForever(c, t, more);
  }

  lemma RunOne(c: Config, s: System, e: Event)
    ensures Run(c, s, [e]) == Do(c, s, e)
  {
    hide Do;
    var none: seq<Event> := [];
    assert [e][1..] == none;
  }

  /** The run that gets there from nothing, with a table of one: a fence, another one, a crash. */
  lemma FullTableReached(c: Config, e: Event, f: Fence, g: Fence, more: seq<Event>)
    requires Lawful(c) && Opens(c, e) && c.maxFences == 1 && f.intent.id != g.intent.id
    requires var boot, first := RecOf(c, FirstBoot(c, e)), Entry(FENCE_INTENT, 2, FencePayload(f));
             && Storable(c, first) && Storable(c, Entry(FENCE_INTENT, 3, FencePayload(g)))
             && |Encode(boot)| + |Encode(RecOf(c, first))| < c.bounds.bytes
    ensures var s := Run(c, Fresh(), [e, Ack] + (Commits(FENCE_INTENT, FencePayload(f)) +
                                                 (Commits(FENCE_INTENT, FencePayload(g)) + [Crash(0)])));
            s.process.Down? && Recover(c, s.snapshot, s.journal).Refusal? && Run(c, s, more) == s
  {
    hide Lawful, Good, Recover, Storable, Run, RecsOf, Encode, Opens, Fresh, FirstBoot, Commits, Meaning, Room;
    var one, two := Commits(FENCE_INTENT, FencePayload(f)), Commits(FENCE_INTENT, FencePayload(g)) + [Crash(0)];
    FirstOpening(c, e);
    FreshGood(c);
    RunGood(c, Fresh(), [e, Ack]);
    var s := Run(c, Fresh(), [e, Ack]);
    FirstIsBoot(c, e);
    FirstTable(c, FirstBoot(c, e), f, g);
    Committing(c, s, FENCE_INTENT, FencePayload(f));
    var t := Run(c, s, one);
    RunGood(c, s, one);
    FullTableRefuses(c, t, FENCE_INTENT, g, 0, more);
    RunAppend(c, Fresh(), [e, Ack], one + two);
    RunAppend(c, s, one, two);
  }

  lemma FirstIsBoot(c: Config, e: Event)
    requires Opens(c, e)
    ensures e.Open? && FirstBoot(c, e).what.BootPayload?
  {}

  lemma FirstTable(c: Config, boot: Entry, f: Fence, g: Fence)
    requires boot.what.BootPayload? && f.intent.id != g.intent.id && c.maxFences == 1
    ensures var e := Entry(FENCE_INTENT, 2, FencePayload(f));
            !Room(c, Meaning(c, [boot] + [e]).fences, g)
  {
    hide Newest, FenceLine;
    var e := Entry(FENCE_INTENT, 2, FencePayload(f));
    MeaningNext(c, [boot], e);
    assert [] + [boot] == [boot];
    MeaningNext(c, [], boot);
    assert Meaning(c, [boot]).fences == [];
  }
}
