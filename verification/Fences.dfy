/** The bounded registry of fencing intents and its accounting. */
module Fences {
  import opened Bytes
  import opened Domain
  import opened Store
  import opened Restart

  const MAX_TIME: int := 0x7FFF_FFFF_FFFF_FFFF

  /** The registry's counters. */
  datatype Stats = Stats(
    attempts: int, issued: int, open: int, acknowledged: int, effects: int, verified: int, revoked: int,
    expired: int, fencedByRestart: int, duplicates: int, capacity: int, unknown: int)

  /** The records, in the order of their ids, and the counters. */
  datatype Registry = Registry(records: seq<Fence>, stats: Stats)

  /** The policy's share: how many records, which version, and how long an intent lives. */
  datatype Rules = Rules(maxFences: nat, version: nat, ttl: int)

  /** What an intent is asked for. */
  datatype Ask = Ask(scope: Scope, gens: Gens, boot: nat, incarnation: nat, reason: Cause, now: int)

  /** Fresh identities, as the identity hash mints them. */
  datatype Mint = Mint(id: nat, decision: nat)

  predicate Ordered(rs: seq<Fence>) {
    forall i, j :: 0 <= i < j < |rs| ==> rs[i].intent.id < rs[j].intent.id
  }

  predicate Holder(f: Fence, scope: Scope, gens: Gens) {
    OpenLife(f.life) && f.intent.scope == scope && f.intent.gens == gens
  }

  /** The position of the first open record for a subject under these generations, or the length. */
  function FirstHolder(rs: seq<Fence>, scope: Scope, gens: Gens): (i: nat)
    ensures i <= |rs| && (i < |rs| ==> Holder(rs[i], scope, gens))
    ensures forall j :: 0 <= j < i ==> !Holder(rs[j], scope, gens)
  {
    if rs == [] || Holder(rs[0], scope, gens) then 0 else FirstHolder(rs[1..], scope, gens) + 1
  }

  function FirstOpenFor(rs: seq<Fence>, scope: Scope): (i: nat)
    ensures i <= |rs| && (i < |rs| ==> OpenLife(rs[i].life) && rs[i].intent.scope == scope)
    ensures forall j :: 0 <= j < i ==> !(OpenLife(rs[j].life) && rs[j].intent.scope == scope)
  {
    if rs == [] || (OpenLife(rs[0].life) && rs[0].intent.scope == scope) then 0 else FirstOpenFor(rs[1..], scope) + 1
  }

  /** Where a record goes in id order. */
  function Slot(rs: seq<Fence>, id: nat): (i: nat)
    ensures i <= |rs| && (forall j :: 0 <= j < i ==> rs[j].intent.id < id) && (i < |rs| ==> id <= rs[i].intent.id)
  {
    if rs == [] || id <= rs[0].intent.id then 0 else Slot(rs[1..], id) + 1
  }

  function Inserted(rs: seq<Fence>, f: Fence): seq<Fence> {
    var i := Slot(rs, f.intent.id);
    rs[..i] + [f] + rs[i..]
  }

  function IntentFor(rules: Rules, a: Ask, m: Mint): Intent {
    Intent(m.id, m.decision, a.scope, a.gens, a.boot, a.incarnation, rules.version, a.reason, a.now, a.now + rules.ttl)
  }

  /** The lifetime arithmetic stays in range and moves forward. */
  predicate Lasts(rules: Rules, now: int) {
    now + rules.ttl <= MAX_TIME && rules.ttl > 0
  }

  predicate AskOk(a: Ask) {
    a.scope != 0 && Complete(a.gens) && a.boot != 0 && a.incarnation != 0
  }

  /** The intent an ask may mint, before anything is recorded: the checks, in order. */
  function Stage(rules: Rules, r: Registry, a: Ask, m: Mint): (Registry, Outcome, Option<Intent>) {
    var s := r.stats.(attempts := r.stats.attempts + 1);
    if !AskOk(a) then (r.(stats := s), Invalid, None)
    else if FirstHolder(r.records, a.scope, a.gens) < |r.records| then
      (r.(stats := s.(duplicates := s.duplicates + 1)), Duplicate, None)
    else if |r.records| >= rules.maxFences then (r.(stats := s.(capacity := s.capacity + 1)), Exhausted, None)
    else if !Lasts(rules, a.now) then (r.(stats := s), Invalid, None)
    else (r.(stats := s), Ok, Some(IntentFor(rules, a, m)))
  }

  function Recorded(r: Registry, i: Intent): Registry {
    Registry(Inserted(r.records, NewFence(i)), r.stats.(issued := r.stats.issued + 1, open := r.stats.open + 1))
  }

  /** A staged intent becomes a record, unless something took its place meanwhile. */
  function CommitStaged(rules: Rules, r: Registry, i: Intent): (Registry, Outcome) {
    if !ValidIntent(i) then (r, Invalid)
    else if Known(r.records, i.id) then (r, Duplicate)
    else if FirstHolder(r.records, i.scope, i.gens) < |r.records| then (r, Duplicate)
    else if |r.records| >= rules.maxFences then (r, Exhausted)
    else (Recorded(r, i), Ok)
  }

  /** One-step issuance. */
  function Issue(rules: Rules, r: Registry, a: Ask, m: Mint): (Registry, Outcome) {
    var (t, o, i) := Stage(rules, r, a, m);
    if o != Ok then (t, o)
    else if i.None? then (t, Invalid)
    else if Known(t.records, m.id) then (t.(stats := t.stats.(duplicates := t.stats.duplicates + 1)), Duplicate)
    else (Recorded(t, i.value), Ok)
  }

  function Expired(f: Fence): Fence {
    f.(life := ExpiredLife, terminal := FenceExpired)
  }

  function CountExpired(s: Stats): Stats {
    s.(open := s.open - 1, expired := s.expired + 1)
  }

  function Acknowledge(r: Registry, id: nat, owner: nat, now: int): (Registry, Outcome) {
    var i := FindFence(r.records, id);
    if i == |r.records| then (r.(stats := r.stats.(unknown := r.stats.unknown + 1)), NotFound)
    else
      var f := r.records[i];
      if !OpenLife(f.life) then (r, Fenced)
      else if now >= f.intent.expiresAt then (Registry(r.records[i := Expired(f)], CountExpired(r.stats)),
                                              Outcome.Expired)
      else
        var g := f.(life := if f.life.Intended? then Acknowledged else f.life, ackOwner := owner, ackedAt := now);
        (Registry(r.records[i := g],
                  if f.life.Intended? then r.stats.(acknowledged := r.stats.acknowledged + 1) else r.stats), Ok)
  }

  function ReportEffect(r: Registry, id: nat, owner: nat, verified: bool, now: int): (Registry, Outcome) {
    var i := FindFence(r.records, id);
    if i == |r.records| then (r.(stats := r.stats.(unknown := r.stats.unknown + 1)), NotFound)
    else
      var f := r.records[i];
      if !OpenLife(f.life) then (r, Fenced)
      else if now >= f.intent.expiresAt then (Registry(r.records[i := Expired(f)], CountExpired(r.stats)),
                                              Outcome.Expired)
      else
        (Registry(r.records[i := f.(life := EffectReported, effectOwner := owner, effectedAt := now,
                                    verified := verified)],
                  r.stats.(effects := r.stats.effects + 1, verified := r.stats.verified + (if verified then 1 else 0))),
         Ok)
  }

  function Revoke(r: Registry, id: nat, reason: Cause, now: int): (Registry, Outcome) {
    var i := FindFence(r.records, id);
    if i == |r.records| then (r.(stats := r.stats.(unknown := r.stats.unknown + 1)), NotFound)
    else if !OpenLife(r.records[i].life) then (r, Fenced)
    else
      (Registry(r.records[i := r.records[i].(life := RevokedLife, terminal := reason, effectedAt := now)],
                r.stats.(open := r.stats.open - 1, revoked := r.stats.revoked + 1)), Ok)
  }

  /** One record under revalidation: expired, revoked by a moved dependency, or kept. */
  function Revalidated(f: Fence, now: int, current: Gens): Fence {
    if !OpenLife(f.life) then f
    else if now >= f.intent.expiresAt then Expired(f)
    else if f.intent.gens != current then f.(life := RevokedLife, terminal := DependencyGenerationChanged)
    else f
  }

  function RevalidatedStats(s: Stats, f: Fence, now: int, current: Gens): Stats {
    if !OpenLife(f.life) then s
    else if now >= f.intent.expiresAt then CountExpired(s)
    else if f.intent.gens != current then s.(open := s.open - 1, revoked := s.revoked + 1)
    else s
  }

  /** Revalidation of all records, and the ids that lost their standing, in order. */
  function Revalidate(r: Registry, now: int, current: Gens): (Registry, seq<nat>)
    decreases |r.records|
  {
    if r.records == [] then (r, [])
    else
      var n := |r.records| - 1;
      var f := r.records[n];
      var (t, ids) := Revalidate(Registry(r.records[..n], r.stats), now, current);
      (Registry(t.records + [Revalidated(f, now, current)], RevalidatedStats(t.stats, f, now, current)),
       if OpenLife(f.life) && !OpenLife(Revalidated(f, now, current).life) then ids + [f.intent.id] else ids)
  }

  function FencedAtRestart(f: Fence, reason: Cause, now: int): Fence {
    if OpenLife(f.life) then f.(life := FencedByRestart, terminal := reason, effectedAt := now) else f
  }

  function FenceAll(r: Registry, reason: Cause, now: int): (Registry, seq<nat>)
    decreases |r.records|
  {
    if r.records == [] then (r, [])
    else
      var n := |r.records| - 1;
      var f := r.records[n];
      var (t, ids) := FenceAll(Registry(r.records[..n], r.stats), reason, now);
      (Registry(t.records + [FencedAtRestart(f, reason, now)],
                if OpenLife(f.life) then t.stats.(open := t.stats.open - 1,
                                                  fencedByRestart := t.stats.fencedByRestart + 1)
                else t.stats),
       if OpenLife(f.life) then ids + [f.intent.id] else ids)
  }

  // ---- what every operation keeps ----

  function OpenCount(rs: seq<Fence>): nat {
    if rs == [] then 0 else OpenCount(rs[..|rs| - 1]) + (if OpenLife(rs[|rs| - 1].life) then 1 else 0)
  }

  /** Issued fences are open or ended, and the open ones are counted exactly. */
  predicate Balanced(r: Registry) {
    && r.stats.issued == r.stats.open + r.stats.revoked + r.stats.expired + r.stats.fencedByRestart
    && r.stats.open == OpenCount(r.records)
  }

  /** No two open records share subject and generations. */
  predicate OneHolder(rs: seq<Fence>) {
    forall i, j :: 0 <= i < j < |rs| && OpenLife(rs[i].life) && OpenLife(rs[j].life) ==>
      rs[i].intent.scope != rs[j].intent.scope || rs[i].intent.gens != rs[j].intent.gens
  }

  ghost predicate Sound(rules: Rules, r: Registry) {
    Ordered(r.records) && OneHolder(r.records) && Balanced(r) && |r.records| <= rules.maxFences
  }

  lemma {:induction false} CountAppend(a: seq<Fence>, b: seq<Fence>)
    ensures OpenCount(a + b) == OpenCount(a) + OpenCount(b)
    decreases |b|
  {
    if b == [] {
      assert a + b == a;
    } else {
      CountAppend(a, b[..|b| - 1]);
      assert (a + b)[..|a + b| - 1] == a + b[..|b| - 1];
    }
  }

  lemma CountOne(f: Fence)
    ensures OpenCount([f]) == if OpenLife(f.life) then 1 else 0
  {
    assert [f][..0] == [];
  }

  lemma CountUpdate(rs: seq<Fence>, i: nat, f: Fence)
    requires i < |rs|
    ensures OpenCount(rs[i := f]) ==
            OpenCount(rs) - (if OpenLife(rs[i].life) then 1 else 0) + (if OpenLife(f.life) then 1 else 0)
  {
    CountAppend(rs[..i], [rs[i]] + rs[i + 1..]);
    CountAppend([rs[i]], rs[i + 1..]);
    CountAppend(rs[..i], [f] + rs[i + 1..]);
    CountAppend([f], rs[i + 1..]);
    CountOne(rs[i]);
    CountOne(f);
    assert rs == rs[..i] + ([rs[i]] + rs[i + 1..]) && rs[i := f] == rs[..i] + ([f] + rs[i + 1..]);
  }

  lemma CountInsert(rs: seq<Fence>, i: nat, f: Fence)
    requires i <= |rs|
    ensures OpenCount(rs[..i] + [f] + rs[i..]) == OpenCount(rs) + (if OpenLife(f.life) then 1 else 0)
  {
    CountAppend(rs[..i] + [f], rs[i..]);
    CountAppend(rs[..i], [f]);
    CountAppend(rs[..i], rs[i..]);
    CountOne(f);
    assert rs == rs[..i] + rs[i..];
  }

  /** A record replaced by one with the same intent, open only if the old one was. */
  lemma ReplaceKeeps(rs: seq<Fence>, i: nat, f: Fence)
    requires i < |rs| && f.intent == rs[i].intent && (OpenLife(f.life) ==> OpenLife(rs[i].life))
    requires Ordered(rs) && OneHolder(rs)
    ensures Ordered(rs[i := f]) && OneHolder(rs[i := f])
  {}

  lemma InsertedAt(rs: seq<Fence>, f: Fence, j: nat)
    requires j <= |rs|
    ensures var i := Slot(rs, f.intent.id);
            Inserted(rs, f)[j] == if j < i then rs[j] else if j == i then f else rs[j - 1]
    ensures |Inserted(rs, f)| == |rs| + 1
  {}

  lemma InsertOrdered(rs: seq<Fence>, f: Fence)
    requires Ordered(rs) && !Known(rs, f.intent.id)
    ensures Ordered(Inserted(rs, f))
  {
    hide Inserted;
    InsertedAt(rs, f, 0);
    var t, i := Inserted(rs, f), Slot(rs, f.intent.id);
    forall j, k | 0 <= j < k < |t|
      ensures t[j].intent.id < t[k].intent.id
    {
      InsertedAt(rs, f, j);
      InsertedAt(rs, f, k);
      assert i < |rs| ==> f.intent.id < rs[i].intent.id;
    }
  }

  lemma InsertOneHolder(rs: seq<Fence>, f: Fence)
    requires OneHolder(rs) && FirstHolder(rs, f.intent.scope, f.intent.gens) == |rs|
    ensures OneHolder(Inserted(rs, f))
  {
    hide Inserted;
    InsertedAt(rs, f, 0);
    var t, i := Inserted(rs, f), Slot(rs, f.intent.id);
    assert forall j :: 0 <= j < |rs| ==> !Holder(rs[j], f.intent.scope, f.intent.gens);
    forall j, k | 0 <= j < k < |t| && OpenLife(t[j].life) && OpenLife(t[k].life)
      ensures t[j].intent.scope != t[k].intent.scope || t[j].intent.gens != t[k].intent.gens
    {
      InsertedAt(rs, f, j);
      InsertedAt(rs, f, k);
    }
  }

  lemma RecordedKeeps(rules: Rules, r: Registry, i: Intent)
    requires Sound(rules, r) && |r.records| < rules.maxFences && !Known(r.records, i.id)
    requires FirstHolder(r.records, i.scope, i.gens) == |r.records|
    ensures Sound(rules, Recorded(r, i))
  {
    hide Ordered, OneHolder, OpenCount, FindFence, FirstHolder;
    InsertOrdered(r.records, NewFence(i));
    InsertOneHolder(r.records, NewFence(i));
    CountInsert(r.records, Slot(r.records, i.id), NewFence(i));
  }

  lemma StageKeeps(rules: Rules, r: Registry, a: Ask, m: Mint)
    requires Sound(rules, r)
    ensures Sound(rules, Stage(rules, r, a, m).0) && Stage(rules, r, a, m).0.records == r.records
  {
    hide Ordered, OneHolder, OpenCount, FirstHolder;
  }

  lemma CommitStagedKeeps(rules: Rules, r: Registry, i: Intent)
    requires Sound(rules, r)
    ensures Sound(rules, CommitStaged(rules, r, i).0)
  {
    hide Sound, FirstHolder, FindFence;
    if CommitStaged(rules, r, i).1 == Ok {
      RecordedKeeps(rules, r, i);
    }
  }

  lemma IssueKeeps(rules: Rules, r: Registry, a: Ask, m: Mint)
    requires Sound(rules, r)
    ensures Sound(rules, Issue(rules, r, a, m).0)
  {
    hide Ordered, OneHolder, OpenCount, FirstHolder, FindFence;
    StageKeeps(rules, r, a, m);
    if Issue(rules, r, a, m).1 == Ok {
      RecordedKeeps(rules, Stage(rules, r, a, m).0, IntentFor(rules, a, m));
    }
  }

  lemma AcknowledgeKeeps(rules: Rules, r: Registry, id: nat, owner: nat, now: int)
    requires Sound(rules, r)
    ensures Sound(rules, Acknowledge(r, id, owner, now).0)
  {
    hide Ordered, OneHolder, OpenCount;
    var i, t := FindFence(r.records, id), Acknowledge(r, id, owner, now).0;
    if i < |r.records| && OpenLife(r.records[i].life) {
      ReplaceKeeps(r.records, i, t.records[i]);
      CountUpdate(r.records, i, t.records[i]);
    }
  }

  lemma ReportEffectKeeps(rules: Rules, r: Registry, id: nat, owner: nat, verified: bool, now: int)
    requires Sound(rules, r)
    ensures Sound(rules, ReportEffect(r, id, owner, verified, now).0)
  {
    hide Ordered, OneHolder, OpenCount;
    var i, t := FindFence(r.records, id), ReportEffect(r, id, owner, verified, now).0;
    if i < |r.records| && OpenLife(r.records[i].life) {
      ReplaceKeeps(r.records, i, t.records[i]);
      CountUpdate(r.records, i, t.records[i]);
    }
  }

  lemma RevokeKeeps(rules: Rules, r: Registry, id: nat, reason: Cause, now: int)
    requires Sound(rules, r)
    ensures Sound(rules, Revoke(r, id, reason, now).0)
  {
    hide Ordered, OneHolder, OpenCount;
    var i, t := FindFence(r.records, id), Revoke(r, id, reason, now).0;
    if i < |r.records| && OpenLife(r.records[i].life) {
      ReplaceKeeps(r.records, i, t.records[i]);
      CountUpdate(r.records, i, t.records[i]);
    }
  }

  /** Revalidation goes record by record. */
  lemma {:induction false} RevalidateEach(r: Registry, now: int, current: Gens)
    ensures var t := Revalidate(r, now, current).0;
            && |t.records| == |r.records|
            && forall i :: 0 <= i < |r.records| ==> t.records[i] == Revalidated(r.records[i], now, current)
    decreases |r.records|
  {
    hide Revalidated, RevalidatedStats;
    if r.records != [] {
      RevalidateEach(Registry(r.records[..|r.records| - 1], r.stats), now, current);
    }
  }

  /** Every record that leaves the open states is counted once, as expired or as revoked. */
  lemma {:induction false} RevalidateCounts(r: Registry, now: int, current: Gens)
    ensures var (t, ids) := Revalidate(r, now, current);
            && t.stats.open - r.stats.open == OpenCount(t.records) - OpenCount(r.records)
            && t.stats.open + t.stats.revoked + t.stats.expired == r.stats.open + r.stats.revoked + r.stats.expired
            && t.stats.issued == r.stats.issued && t.stats.fencedByRestart == r.stats.fencedByRestart
            && t.stats.open == r.stats.open - |ids|
    decreases |r.records|
  {
    hide Revalidated, RevalidatedStats, OpenCount;
    if r.records == [] {
    } else {
      var n := |r.records| - 1;
      var f, g := r.records[n], Revalidated(r.records[n], now, current);
      var front := Registry(r.records[..n], r.stats);
      RevalidateCounts(front, now, current);
      var (t, ids) := Revalidate(front, now, current);
      CountLast(t.records, g);
      CountLast(front.records, f);
      assert r.records == front.records + [f];
      RevalidatedCounts(t.stats, f, now, current);
    }
  }

  lemma CountLast(rs: seq<Fence>, f: Fence)
    ensures OpenCount(rs + [f]) == OpenCount(rs) + (if OpenLife(f.life) then 1 else 0)
  {
    assert (rs + [f])[..|rs|] == rs;
  }

  lemma RevalidatedCounts(s: Stats, f: Fence, now: int, current: Gens)
    ensures var t := RevalidatedStats(s, f, now, current);
            var ended := OpenLife(f.life) && !OpenLife(Revalidated(f, now, current).life);
            && t.open == s.open - (if ended then 1 else 0)
               && t.open + t.revoked + t.expired == s.open + s.revoked + s.expired
            && t.issued == s.issued && t.fencedByRestart == s.fencedByRestart
            && (OpenLife(Revalidated(f, now, current).life) ==> OpenLife(f.life))
  {}

  /** The record loses its standing under revalidation. */
  predicate Ends(f: Fence, now: int, current: Gens) {
    OpenLife(f.life) && (now >= f.intent.expiresAt || f.intent.gens != current)
  }

  function EndedIds(rs: seq<Fence>, now: int, current: Gens): seq<nat> {
    if rs == [] then []
    else EndedIds(rs[..|rs| - 1], now, current) + (if Ends(rs[|rs| - 1], now, current) then [rs[|rs| - 1].intent.id]
                                                   else [])
  }

  /** The reported ids are those of the records that lost their standing, in id order. */
  lemma {:induction false} RevalidateIds(r: Registry, now: int, current: Gens)
    ensures Revalidate(r, now, current).1 == EndedIds(r.records, now, current)
    decreases |r.records|
  {
    hide RevalidatedStats;
    if r.records != [] {
      RevalidateIds(Registry(r.records[..|r.records| - 1], r.stats), now, current);
    }
  }

  lemma RevalidateKeeps(rules: Rules, r: Registry, now: int, current: Gens)
    requires Sound(rules, r)
    ensures var t := Revalidate(r, now, current).0;
            && Sound(rules, t)
            && forall i :: 0 <= i < |t.records| && OpenLife(t.records[i].life) ==> t.records[i].intent.gens == current
  {
    hide Revalidate, OpenCount;
    RevalidateEach(r, now, current);
    RevalidateCounts(r, now, current);
  }

  lemma {:induction false} FenceAllEach(r: Registry, reason: Cause, now: int)
    ensures var t := FenceAll(r, reason, now).0;
            && |t.records| == |r.records|
            && forall i :: 0 <= i < |r.records| ==> t.records[i] == FencedAtRestart(r.records[i], reason, now)
    decreases |r.records|
  {
    hide FencedAtRestart;
    if r.records != [] {
      FenceAllEach(Registry(r.records[..|r.records| - 1], r.stats), reason, now);
    }
  }

  lemma {:induction false} FenceAllCounts(r: Registry, reason: Cause, now: int)
    ensures var (t, ids) := FenceAll(r, reason, now);
            && t.stats == r.stats.(open := r.stats.open - OpenCount(r.records),
                                   fencedByRestart := r.stats.fencedByRestart + OpenCount(r.records))
            && OpenCount(t.records) == 0 && |ids| == OpenCount(r.records)
    decreases |r.records|
  {
    hide OpenCount, FenceAll, FencedAtRestart;
    if r.records == [] {
      NoRecords();
      FenceAllNone(r.stats, reason, now);
    } else {
      var n := |r.records| - 1;
      var f, g := r.records[n], FencedAtRestart(r.records[n], reason, now);
      var front := Registry(r.records[..n], r.stats);
      FenceAllCounts(front, reason, now);
      FenceAllNext(r, n, reason, now);
      ClosedAtRestart(f, reason, now);
      CountLast(FenceAll(front, reason, now).0.records, g);
      CountLast(front.records, f);
      assert r.records == front.records + [f];
      assert r.records[..n + 1] == r.records;
    }
  }

  lemma ClosedAtRestart(f: Fence, reason: Cause, now: int)
    ensures !OpenLife(FencedAtRestart(f, reason, now).life)
  {}

  lemma NoRecords()
    ensures OpenCount([]) == 0 && Ordered([]) && OneHolder([])
  {}

  /** Fencing everything leaves no record open. */
  lemma FenceAllKeeps(rules: Rules, r: Registry, reason: Cause, now: int)
    requires Sound(rules, r)
    ensures var t := FenceAll(r, reason, now).0;
            && Sound(rules, t) && NoneOpen(t.records) && t.stats.open == 0
  {
    hide FenceAll, OpenCount;
    FenceAllEach(r, reason, now);
    FenceAllCounts(r, reason, now);
  }

  // ---- the other identity, and where it breaks ----

  function Empty(): Registry {
    Registry([], Stats(0, 0, 0, 0, 0, 0, 0, 0, 0, 0, 0, 0))
  }

  /** The two accounting identities the registry reports on. */
  predicate Closed(r: Registry) {
    && r.stats.attempts == r.stats.issued + r.stats.duplicates + r.stats.capacity
    && r.stats.issued == r.stats.open + r.stats.revoked + r.stats.expired + r.stats.fencedByRestart
  }

  /** Attempts not accounted for as issued, duplicate or over capacity. */
  function Gap(r: Registry): int {
    r.stats.attempts - r.stats.issued - r.stats.duplicates - r.stats.capacity
  }

  /** No open record holds the subject under these generations, and the registry has room. */
  predicate Vacant(rules: Rules, r: Registry, scope: Scope, gens: Gens) {
    FirstHolder(r.records, scope, gens) == |r.records| && |r.records| < rules.maxFences
  }

  /**
   * An ask refused without being counted: not well formed, or for a lifetime out of range where one could be issued.
   */
  predicate Uncounted(rules: Rules, r: Registry, a: Ask) {
    !AskOk(a) || (Vacant(rules, r, a.scope, a.gens) && !Lasts(rules, a.now))
  }

  /** An ask that is staged, or refused without being counted. */
  predicate Outstanding(rules: Rules, r: Registry, a: Ask) {
    !AskOk(a) || Vacant(rules, r, a.scope, a.gens)
  }

  /** A staged intent that will be recorded. */
  predicate Recordable(rules: Rules, r: Registry, i: Intent) {
    ValidIntent(i) && !Known(r.records, i.id) && Vacant(rules, r, i.scope, i.gens)
  }

  /** By how much each way of asking opens or closes the gap, told by what could be checked before the call. */
  lemma AttemptsAccounted(rules: Rules, r: Registry, a: Ask, m: Mint, i: Intent)
    ensures Gap(Issue(rules, r, a, m).0) == Gap(r) + (if Uncounted(rules, r, a) then 1 else 0)
    ensures Gap(Stage(rules, r, a, m).0) == Gap(r) + (if Outstanding(rules, r, a) then 1 else 0)
    ensures Gap(CommitStaged(rules, r, i).0) == Gap(r) - (if Recordable(rules, r, i) then 1 else 0)
  {
    hide FirstHolder, FindFence, Inserted, ValidIntent, AskOk, Lasts;
  }

  /** A staged intent is recorded at once, and the gap closed again, exactly when it lasts and its id is new. */
  lemma StagedThenRecorded(rules: Rules, r: Registry, a: Ask, m: Mint)
    requires m.id != 0 && m.decision != 0
    ensures var (t, o, i) := Stage(rules, r, a, m);
            Gap(if i.Some? then CommitStaged(rules, t, i.value).0 else t) ==
            Gap(r) + (if Uncounted(rules, r, a) || (Vacant(rules, r, a.scope, a.gens) && Known(r.records, m.id)) then 1
                      else 0)
  {
    hide FirstHolder, FindFence, Inserted;
  }

  /** Two asks that break the first identity, on an empty registry: for no subject, and at the end of time. */
  lemma FailingAsks(rules: Rules, m: Mint)
    requires rules.maxFences > 0
    ensures !Closed(Issue(rules, Empty(), Ask(0, Gens(1, 1, 1, 1), 1, 1, NoCause, 0), m).0)
    ensures !Closed(Issue(rules, Empty(), Ask(1, Gens(1, 1, 1, 1), 1, 1, NoCause, MAX_TIME), m).0)
  {}

  // ---- accounts over every run of the registry ----

  datatype Step =
    | Issuing(ask: Ask, mint: Mint)
    | Staging(ask: Ask, mint: Mint)
    | Recording(intent: Intent)
    | Acknowledging(id: nat, owner: nat, now: int)
    | Reporting(id: nat, owner: nat, verified: bool, now: int)
    | Revoking(id: nat, reason: Cause, now: int)
    | Revalidating(now: int, current: Gens)
    | FencingAll(reason: Cause, now: int)

  function Take(rules: Rules, r: Registry, e: Step): Registry {
    match e
    case Issuing(a, m) => Issue(rules, r, a, m).0
    case Staging(a, m) => Stage(rules, r, a, m).0
    case Recording(i) => CommitStaged(rules, r, i).0
    case Acknowledging(id, owner, now) => Acknowledge(r, id, owner, now).0
    case Reporting(id, owner, verified, now) => ReportEffect(r, id, owner, verified, now).0
    case Revoking(id, reason, now) => Revoke(r, id, reason, now).0
    case Revalidating(now, current) => Revalidate(r, now, current).0
    case FencingAll(reason, now) => FenceAll(r, reason, now).0
  }

  /** How much one step leaves open, or closes. */
  function Owes(rules: Rules, r: Registry, e: Step): int {
    match e
    case Issuing(a, _) => if Uncounted(rules, r, a) then 1 else 0
    case Staging(a, _) => if Outstanding(rules, r, a) then 1 else 0
    case Recording(i) => if Recordable(rules, r, i) then -1 else 0
    case _ => 0
  }

  function TakeAll(rules: Rules, r: Registry, es: seq<Step>): Registry
    decreases |es|
  {
    if es == [] then r else TakeAll(rules, Take(rules, r, es[0]), es[1..])
  }

  function OwesAll(rules: Rules, r: Registry, es: seq<Step>): int
    decreases |es|
  {
    if es == [] then 0 else Owes(rules, r, es[0]) + OwesAll(rules, Take(rules, r, es[0]), es[1..])
  }

  lemma {:induction false} RevalidateGap(r: Registry, now: int, current: Gens)
    ensures Gap(Revalidate(r, now, current).0) == Gap(r)
    decreases |r.records|
  {
    hide Revalidated;
    if r.records != [] {
      RevalidateGap(Registry(r.records[..|r.records| - 1], r.stats), now, current);
    }
  }

  lemma TakeOwes(rules: Rules, r: Registry, e: Step)
    ensures Gap(Take(rules, r, e)) == Gap(r) + Owes(rules, r, e)
  {
    hide Issue, Stage, CommitStaged, Revalidate, FenceAll, Uncounted, Outstanding, Recordable, FindFence, OpenCount;
    match e
    case Issuing(a, m) => AttemptsAccounted(rules, r, a, m, IntentFor(rules, a, m));
    case Staging(a, m) => AttemptsAccounted(rules, r, a, m, IntentFor(rules, a, m));
    case Recording(i) =>
      AttemptsAccounted(rules, r, Ask(i.scope, i.gens, i.boot, i.incarnation, i.reason, i.issuedAt),
                        Mint(i.id, i.decision), i);
    case Revalidating(now, current) => RevalidateGap(r, now, current);
    case FencingAll(reason, now) => FenceAllCounts(r, reason, now);
    case _ =>
  }

  lemma TakeKeeps(rules: Rules, r: Registry, e: Step)
    requires Sound(rules, r)
    ensures Sound(rules, Take(rules, r, e))
  {
    hide Sound, Issue, Stage, CommitStaged, Acknowledge, ReportEffect, Revoke, Revalidate, FenceAll;
    match e
    case Issuing(a, m) => IssueKeeps(rules, r, a, m);
    case Staging(a, m) => StageKeeps(rules, r, a, m);
    case Recording(i) => CommitStagedKeeps(rules, r, i);
    case Acknowledging(id, owner, now) => AcknowledgeKeeps(rules, r, id, owner, now);
    case Reporting(id, owner, verified, now) => ReportEffectKeeps(rules, r, id, owner, verified, now);
    case Revoking(id, reason, now) => RevokeKeeps(rules, r, id, reason, now);
    case Revalidating(now, current) => RevalidateKeeps(rules, r, now, current);
    case FencingAll(reason, now) => FenceAllKeeps(rules, r, reason, now);
  }

  lemma {:induction false} TakeAllKeeps(rules: Rules, r: Registry, es: seq<Step>)
    requires Sound(rules, r)
    ensures Sound(rules, TakeAll(rules, r, es)) && Gap(TakeAll(rules, r, es)) == Gap(r) + OwesAll(rules, r, es)
    decreases |es|
  {
    hide Sound, Take, Owes, Gap;
    if es != [] {
      TakeKeeps(rules, r, es[0]);
      TakeOwes(rules, r, es[0]);
      TakeAllKeeps(rules, Take(rules, r, es[0]), es[1..]);
    }
  }

  lemma EmptySound(rules: Rules)
    ensures Sound(rules, Empty()) && Gap(Empty()) == 0
  {
    hide Ordered, OneHolder, Balanced;
    NoRecords();
    EmptyBalanced();
  }

  lemma EmptyBalanced()
    ensures Balanced(Empty())
  {
    hide OpenCount;
    NoRecords();
  }

  /** The second identity is part of soundness; the first one says that the gap is closed. */
  lemma SoundCloses(rules: Rules, r: Registry)
    requires Sound(rules, r)
    ensures r.stats.issued == r.stats.open + r.stats.revoked + r.stats.expired + r.stats.fencedByRestart
    ensures Closed(r) <==> Gap(r) == 0
  {
    hide Ordered, OneHolder, OpenCount;
  }

  /** Over every run the accounts close exactly when what asks left open was closed by recordings. */
  lemma ClosedExact(rules: Rules, es: seq<Step>)
    ensures Closed(TakeAll(rules, Empty(), es)) <==> OwesAll(rules, Empty(), es) == 0
  {
    hide TakeAll, OwesAll, Sound, Gap, Empty, Closed;
    EmptySound(rules);
    TakeAllKeeps(rules, Empty(), es);
    SoundCloses(rules, TakeAll(rules, Empty(), es));
  }

  // ---- the registry object ----

  class FenceRegistry {
    const rules: Rules
    var records: seq<Fence>
    var stats: Stats

    constructor (rules: Rules)
      ensures this.rules == rules && Contents() == Empty()
    {
      this.rules := rules;
      records, stats := [], Stats(0, 0, 0, 0, 0, 0, 0, 0, 0, 0, 0, 0);
    }

    function Contents(): Registry
      reads this
    {
      Registry(records, stats)
    }

    method Find(id: nat) returns (i: nat)
      ensures i == FindFence(records, id)
    {
      i := 0;
      while i < |records|
        invariant i <= |records| && forall j :: 0 <= j < i ==> records[j].intent.id != id
      {
        if records[i].intent.id == id {
          return;
        }
        i := i + 1;
      }
    }

    method FindHolder(scope: Scope, gens: Gens) returns (i: nat)
      ensures i == FirstHolder(records, scope, gens)
    {
      i := 0;
      while i < |records|
        invariant i <= |records| && forall j :: 0 <= j < i ==> !Holder(records[j], scope, gens)
      {
        if OpenLife(records[i].life) && records[i].intent.scope == scope && records[i].intent.gens == gens {
          return;
        }
        i := i + 1;
      }
    }

    method OpenFor(scope: Scope) returns (f: Option<Fence>)
      ensures var i := FirstOpenFor(records, scope);
              f == if i < |records| then Some(records[i]) else None
    {
      var i := 0;
      while i < |records|
        invariant i <= |records| && forall j :: 0 <= j < i ==>
                    !(OpenLife(records[j].life) && records[j].intent.scope == scope)
      {
        if OpenLife(records[i].life) && records[i].intent.scope == scope {
          return Some(records[i]);
        }
        i := i + 1;
      }
      return None;
    }

    /** Puts a new record where its id belongs. */
    method Emplace(f: Fence)
      modifies this`records
      ensures records == Inserted(old(records), f)
    {
      var i := 0;
      while i < |records| && records[i].intent.id < f.intent.id
        invariant i <= |records| && forall j :: 0 <= j < i ==> records[j].intent.id < f.intent.id
      {
        i := i + 1;
      }
      assert i == Slot(records, f.intent.id);
      records := records[..i] + [f] + records[i..];
    }

    method DoStage(a: Ask, m: Mint) returns (o: Outcome, intent: Option<Intent>)
      modifies this`stats
      ensures (Contents(), o, intent) == Stage(rules, old(Contents()), a, m)
    {
      stats := stats.(attempts := stats.attempts + 1);
      intent := None;
      if a.scope == 0 || !Complete(a.gens) || a.boot == 0 || a.incarnation == 0 {
        return Invalid, None;
      }
      var i := FindHolder(a.scope, a.gens);
      if i < |records| {
        stats := stats.(duplicates := stats.duplicates + 1);
        return Duplicate, None;
      }
      if |records| >= rules.maxFences {
        stats := stats.(capacity := stats.capacity + 1);
        return Exhausted, None;
      }
      var fits := a.now + rules.ttl <= MAX_TIME;
      var expiresAt := if fits then a.now + rules.ttl else a.now;
      if !fits || expiresAt <= a.now {
        return Invalid, None;
      }
      return Ok, Some(Intent(m.id, m.decision, a.scope, a.gens, a.boot, a.incarnation, rules.version, a.reason, a.now,
                             expiresAt));
    }

    method DoCommitStaged(intent: Intent) returns (o: Outcome)
      modifies this
      ensures (Contents(), o) == CommitStaged(rules, old(Contents()), intent)
    {
      if !ValidIntent(intent) {
        return Invalid;
      }
      var i := Find(intent.id);
      if i < |records| {
        return Duplicate;
      }
      i := FindHolder(intent.scope, intent.gens);
      if i < |records| {
        return Duplicate;
      }
      if |records| >= rules.maxFences {
        return Exhausted;
      }
      Emplace(NewFence(intent));
      stats := stats.(issued := stats.issued + 1, open := stats.open + 1);
      return Ok;
    }

    method DoIssue(a: Ask, m: Mint) returns (o: Outcome, id: nat)
      modifies this
      ensures (Contents(), o) == Issue(rules, old(Contents()), a, m)
      ensures o == Ok ==> id == m.id && Known(records, id)
      ensures o == Duplicate && id != 0 ==> Known(records, id)
    {
      hide Slot, Inserted, Holder;
      id := 0;
      var intent;
      o, intent := DoStage(a, m);
      if o == Duplicate {
        var h := FindHolder(a.scope, a.gens);
        id := records[h].intent.id;
        KnownAt(records, h);
        return;
      }
      if o != Ok {
        return;
      }
      var i := Find(m.id);
      if i < |records| {
        stats := stats.(duplicates := stats.duplicates + 1);
        return Duplicate, 0;
      }
      InsertedKnown(records, NewFence(intent.value));
      Emplace(NewFence(intent.value));
      stats := stats.(issued := stats.issued + 1, open := stats.open + 1);
      id := m.id;
    }

    method DoAcknowledge(id: nat, owner: nat, now: int) returns (o: Outcome)
      modifies this
      ensures (Contents(), o) == Acknowledge(old(Contents()), id, owner, now)
    {
      var i := Find(id);
      if i == |records| {
        stats := stats.(unknown := stats.unknown + 1);
        return NotFound;
      }
      if !OpenLife(records[i].life) {
        return Fenced;
      }
      if now >= records[i].intent.expiresAt {
        records := records[i := records[i].(life := ExpiredLife, terminal := FenceExpired)];
        stats := stats.(open := stats.open - 1, expired := stats.expired + 1);
        return Outcome.Expired;
      }
      ghost var was := records;
      if records[i].life.Intended? {
        records := records[i := records[i].(life := Acknowledged)];
        stats := stats.(acknowledged := stats.acknowledged + 1);
      }
      records := records[i := records[i].(ackOwner := owner, ackedAt := now)];
      assert records == was[i := records[i]];
      return Ok;
    }

    method DoReportEffect(id: nat, owner: nat, verified: bool, now: int) returns (o: Outcome)
      modifies this
      ensures (Contents(), o) == ReportEffect(old(Contents()), id, owner, verified, now)
    {
      var i := Find(id);
      if i == |records| {
        stats := stats.(unknown := stats.unknown + 1);
        return NotFound;
      }
      if !OpenLife(records[i].life) {
        return Fenced;
      }
      if now >= records[i].intent.expiresAt {
        records := records[i := records[i].(life := ExpiredLife, terminal := FenceExpired)];
        stats := stats.(open := stats.open - 1, expired := stats.expired + 1);
        return Outcome.Expired;
      }
      records := records[i := records[i].(life := EffectReported, effectOwner := owner, effectedAt := now,
                                          verified := verified)];
      stats := stats.(effects := stats.effects + 1);
      if verified {
        stats := stats.(verified := stats.verified + 1);
      }
      return Ok;
    }

    method DoRevoke(id: nat, reason: Cause, now: int) returns (o: Outcome)
      modifies this
      ensures (Contents(), o) == Revoke(old(Contents()), id, reason, now)
    {
      var i := Find(id);
      if i == |records| {
        stats := stats.(unknown := stats.unknown + 1);
        return NotFound;
      }
      if !OpenLife(records[i].life) {
        return Fenced;
      }
      records := records[i := records[i].(life := RevokedLife, terminal := reason, effectedAt := now)];
      stats := stats.(open := stats.open - 1, revoked := stats.revoked + 1);
      return Ok;
    }

    /** Walks the table once, ending what expired or lost its generations. */
    method DoRevalidate(now: int, current: Gens) returns (ids: seq<nat>)
      modifies this
      ensures (Contents(), ids) == Revalidate(old(Contents()), now, current)
    {
      hide Revalidate;
      ids := [];
      ghost var was := Contents();
      RevalidateNone(was.stats, now, current);
      var i := 0;
      while i < |records|
        invariant 0 <= i <= |records| == |was.records| && records[i..] == was.records[i..]
        invariant (Registry(records[..i], stats), ids) ==
                  Revalidate(Registry(was.records[..i], was.stats), now, current)
      {
        var f := records[i];
        assert f == was.records[i];
        RevalidateNext(was, i, now, current);
        ghost var before := records;
        if OpenLife(f.life) {
          if now >= f.intent.expiresAt {
            records := records[i := f.(life := ExpiredLife, terminal := FenceExpired)];
            stats := stats.(open := stats.open - 1, expired := stats.expired + 1);
            ids := ids + [f.intent.id];
          } else if f.intent.gens != current {
            records := records[i := f.(life := RevokedLife, terminal := DependencyGenerationChanged)];
            stats := stats.(open := stats.open - 1, revoked := stats.revoked + 1);
            ids := ids + [f.intent.id];
          }
        }
        i := i + 1;
        Walked(before, records, i - 1, Revalidated(f, now, current));
      }
      assert records[..i] == records && was.records[..i] == was.records;
    }

    method DoFenceAll(reason: Cause, now: int) returns (ids: seq<nat>)
      modifies this
      ensures (Contents(), ids) == FenceAll(old(Contents()), reason, now)
    {
      hide FenceAll;
      ids := [];
      ghost var was := Contents();
      FenceAllNone(was.stats, reason, now);
      var i := 0;
      while i < |records|
        invariant 0 <= i <= |records| == |was.records| && records[i..] == was.records[i..]
        invariant (Registry(records[..i], stats), ids) == FenceAll(Registry(was.records[..i], was.stats), reason, now)
      {
        var f := records[i];
        assert f == was.records[i];
        FenceAllNext(was, i, reason, now);
        ghost var before := records;
        if OpenLife(f.life) {
          records := records[i := f.(life := FencedByRestart, terminal := reason, effectedAt := now)];
          stats := stats.(open := stats.open - 1, fencedByRestart := stats.fencedByRestart + 1);
          ids := ids + [f.intent.id];
        }
        i := i + 1;
        Walked(before, records, i - 1, FencedAtRestart(f, reason, now));
      }
      assert records[..i] == records && was.records[..i] == was.records;
    }
  }

  /** One more record of the table walked over. */
  lemma Walked(was: seq<Fence>, rs: seq<Fence>, i: nat, f: Fence)
    requires i < |was| && rs == was[i := f]
    ensures rs[..i + 1] == was[..i] + [f] && rs[i + 1..] == was[i + 1..] && was[i..][1..] == was[i + 1..]
  {}

  lemma RevalidateNone(s: Stats, now: int, current: Gens)
    ensures Revalidate(Registry([], s), now, current) == (Registry([], s), [])
  {}

  lemma RevalidateNext(r: Registry, i: nat, now: int, current: Gens)
    requires i < |r.records|
    ensures var f := r.records[i];
            var (t, ids) := Revalidate(Registry(r.records[..i], r.stats), now, current);
            Revalidate(Registry(r.records[..i + 1], r.stats), now, current) ==
            (Registry(t.records + [Revalidated(f, now, current)], RevalidatedStats(t.stats, f, now, current)),
             if OpenLife(f.life) && !OpenLife(Revalidated(f, now, current).life) then ids + [f.intent.id] else ids)
  {
    hide Revalidated, RevalidatedStats;
    assert r.records[..i + 1][..i] == r.records[..i];
  }

  lemma FenceAllNone(s: Stats, reason: Cause, now: int)
    ensures FenceAll(Registry([], s), reason, now) == (Registry([], s), [])
  {}

  lemma FenceAllNext(r: Registry, i: nat, reason: Cause, now: int)
    requires i < |r.records|
    ensures var f := r.records[i];
            var (t, ids) := FenceAll(Registry(r.records[..i], r.stats), reason, now);
            FenceAll(Registry(r.records[..i + 1], r.stats), reason, now) ==
            (Registry(t.records + [FencedAtRestart(f, reason, now)],
                      if OpenLife(f.life)
                      then t.stats.(open := t.stats.open - 1, fencedByRestart := t.stats.fencedByRestart + 1)
                      else t.stats),
             if OpenLife(f.life) then ids + [f.intent.id] else ids)
  {
    hide FencedAtRestart;
    assert r.records[..i + 1][..i] == r.records[..i];
  }

  lemma KnownAt(rs: seq<Fence>, i: nat)
    requires i < |rs|
    ensures Known(rs, rs[i].intent.id)
  {}

  lemma InsertedKnown(rs: seq<Fence>, f: Fence)
    ensures Known(Inserted(rs, f), f.intent.id)
  {
    InsertedAt(rs, f, Slot(rs, f.intent.id));
    KnownAt(Inserted(rs, f), Slot(rs, f.intent.id));
  }
}
