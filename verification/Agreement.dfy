/**
 * When the fences open in the durable table are those open in memory, step by step and over every run of the engine.
 */
module Agreement {
  import opened Bytes
  import opened Domain
  import opened Records
  import opened Store
  import opened Restart
  import opened LiveStore
  import opened Engine
  import opened Accounts
  import F = Fences

  /** Every fence open in the durable table is open in memory, under the same intent. */
  ghost predicate Agrees(rs: seq<Fence>, fs: seq<Fence>) {
    forall id :: OpenIn(fs, id) ==> Held(rs, fs[FindFence(fs, id)].intent)
  }

  /** An open record in memory has this intent. */
  predicate Held(rs: seq<Fence>, i: Intent) {
    exists k :: 0 <= k < |rs| && OpenLife(rs[k].life) && rs[k].intent == i
  }

  predicate OpenIn(fs: seq<Fence>, id: nat) {
    var k := FindFence(fs, id);
    k < |fs| && OpenLife(fs[k].life)
  }

  /** The durable table has a fence open of which memory has none. */
  ghost predicate Stray(s: State, id: nat) {
    OpenIn(s.disk.state.fences, id) && Unused(s.reg.records, id)
  }

  /** What is open under an id is what was. */
  predicate Carried(fs: seq<Fence>, gs: seq<Fence>, id: nat) {
    OpenIn(gs, id) ==> OpenIn(fs, id) && gs[FindFence(gs, id)] == fs[FindFence(fs, id)]
  }

  ghost predicate Same(s: State) {
    Agrees(s.reg.records, s.disk.state.fences)
  }

  lemma StrayDisagrees(s: State, id: nat)
    requires Stray(s, id)
    ensures !Same(s)
  {}

  // ---- the durable table under one more record ----

  lemma PutOpens(fs: seq<Fence>, f: Fence, id: nat)
    ensures OpenIn(PutFence(fs, f), id) <==> if id == f.intent.id then OpenLife(f.life) else OpenIn(fs, id)
    ensures OpenIn(PutFence(fs, f), id) && id != f.intent.id ==>
              PutFence(fs, f)[FindFence(PutFence(fs, f), id)] == fs[FindFence(fs, id)]
    ensures OpenIn(PutFence(fs, f), id) && id == f.intent.id ==> PutFence(fs, f)[FindFence(PutFence(fs, f), id)] == f
  {
    hide FindFence, PutFence;
    PutFinds(fs, f, id);
  }

  /** A fence written as memory has it, or as ended when memory has none open of its id. */
  lemma PutAgrees(rs: seq<Fence>, fs: seq<Fence>, f: Fence)
    requires Agrees(rs, fs)
    requires OpenLife(f.life) ==> Held(rs, f.intent)
    ensures Agrees(rs, PutFence(fs, f))
  {
    hide FindFence, PutFence;
    forall id | OpenIn(PutFence(fs, f), id)
      ensures Held(rs, PutFence(fs, f)[FindFence(PutFence(fs, f), id)].intent)
    {
      PutOpens(fs, f, id);
      if id != f.intent.id {
        assert OpenIn(fs, id);
      }
    }
  }

  // ---- revalidation ----

  /** The ended fences whose records the store took, in the order they are written. */
  function WrittenIds(x: Setup, s: State, ids: seq<nat>): set<nat> {
    if ids == [] then {}
    else
      var front, id := ids[..|ids| - 1], ids[|ids| - 1];
      var i, d := FindFence(s.reg.records, id), CommitAllEnded(x, s, front).disk;
      WrittenIds(x, s, front) +
      if i < |s.reg.records| && Takes(x.store, d, FencePayload(s.reg.records[i])) then {id} else {}
  }

  /** The records written for ended fences close them in the durable table, and change no other open one. */
  lemma {:induction false} EndedOpens(x: Setup, s: State, ids: seq<nat>)
    requires EndedAll(s.reg.records, ids)
    ensures var fs, gs, written := s.disk.state.fences, CommitAllEnded(x, s, ids).disk.state.fences,
            WrittenIds(x, s, ids);
            forall id :: (OpenIn(gs, id) <==> OpenIn(fs, id) && id !in written) && Carried(fs, gs, id)
    decreases |ids|
  {
    hide OpenIn, CommitEnded, EndedAll, FindFence, Takes, Carried;
    CarriedOn(s.disk.state.fences, s.disk.state.fences, s.disk.state.fences);
    if ids != [] {
      var front, id := ids[..|ids| - 1], ids[|ids| - 1];
      EndedFront(s.reg.records, ids);
      EndedOpens(x, s, front);
      EndedKeepsRegistry(x, s, front);
      var t := CommitAllEnded(x, s, front);
      forall q
        ensures var gs, hs := t.disk.state.fences, CommitEnded(x, t, id).disk.state.fences;
                var i := FindFence(s.reg.records, id);
                var took := i < |s.reg.records| && Takes(x.store, t.disk, FencePayload(s.reg.records[i]));
                (OpenIn(hs, q) <==> OpenIn(gs, q) && !(took && q == id)) && Carried(gs, hs, q)
      {
        OneEnded(x, t, id, q);
      }
      CarriedOn(s.disk.state.fences, t.disk.state.fences, CommitEnded(x, t, id).disk.state.fences);
    }
  }

  lemma CarriedOn(fs: seq<Fence>, gs: seq<Fence>, hs: seq<Fence>)
    ensures forall id :: Carried(fs, gs, id) && Carried(gs, hs, id) ==> Carried(fs, hs, id)
    ensures forall id :: Carried(fs, fs, id)
  {
    hide OpenIn, FindFence;
  }

  lemma EndedFront(rs: seq<Fence>, ids: seq<nat>)
    requires EndedAll(rs, ids) && ids != []
    ensures EndedAll(rs, ids[..|ids| - 1]) && EndedAll(rs, [ids[|ids| - 1]])
  {
    hide FindFence;
    var last := ids[|ids| - 1];
    assert last in ids;
  }

  lemma OneEnded(x: Setup, s: State, id: nat, q: nat)
    requires EndedAll(s.reg.records, [id])
    ensures var fs, gs := s.disk.state.fences, CommitEnded(x, s, id).disk.state.fences;
            var i := FindFence(s.reg.records, id);
            var took := i < |s.reg.records| && Takes(x.store, s.disk, FencePayload(s.reg.records[i]));
            (OpenIn(gs, q) <==> OpenIn(fs, q) && !(took && q == id)) && Carried(fs, gs, q)
  {
    hide Commit, OpenIn, PutFence, Room, Takes;
    var i := FindFence(s.reg.records, id);
    if i < |s.reg.records| {
      var f := s.reg.records[i];
      assert id in [id];
      CommitFence(x.store, s.disk, FENCE_REVOKE, f);
      CommitTakes(x.store, s.disk, FENCE_REVOKE, f);
      PutOpens(s.disk.state.fences, f, q);
      if !Room(x.store, s.disk.state.fences, f) {
        UnknownClosed(x.store, s.disk, f);
      }
    }
  }

  /** A commit of a fence succeeds exactly when the store takes it and has room. */
  lemma CommitTakes(c: Config, d: Disk, kind: nat, f: Fence)
    ensures Commit(c, d, kind, FencePayload(f)).1 == Ok <==> TakesFence(c, d, f)
  {
    hide Encode, RecOf, Encodable, FindFence, Pushed;
  }

  lemma UnknownClosed(c: Config, d: Disk, f: Fence)
    requires !Room(c, d.state.fences, f)
    ensures !OpenIn(d.state.fences, f.intent.id)
  {}

  /** The store takes the record of every fence the call's revalidation ends. */
  predicate EndsWritten(x: Setup, s: State, c: Call) {
    var (r, ids) := F.Revalidate(s.reg, c.revalidatedAt, c.gens);
    var t := s.(reg := r, counters := s.counters.(evaluations := s.counters.evaluations + 1));
    forall id :: id in ids ==> id in WrittenIds(x, t, ids)
  }

  /** A fence stays open in memory exactly unless its id is reported as ended. */
  lemma EndedExactly(r: F.Registry, now: int, gens: Gens, k: nat)
    requires F.Ordered(r.records) && k < |r.records|
    ensures var (t, ids) := F.Revalidate(r, now, gens);
            && |t.records| == |r.records| && t.records[k].intent == r.records[k].intent
            && (OpenLife(r.records[k].life) ==> (OpenLife(t.records[k].life) <==> r.records[k].intent.id !in ids))
            && (OpenLife(t.records[k].life) ==> OpenLife(r.records[k].life))
  {
    hide F.Revalidate, F.EndedIds;
    F.RevalidateEach(r, now, gens);
    F.RevalidateIds(r, now, gens);
    var id := r.records[k].intent.id;
    if id in F.EndedIds(r.records, now, gens) {
      var i := EndedIdsClosed(r.records, now, gens, id);
    } else if F.Ends(r.records[k], now, gens) {
      EndedReported(r.records, now, gens, k);
    }
  }

  lemma {:induction false} EndedReported(rs: seq<Fence>, now: int, gens: Gens, k: nat)
    requires k < |rs| && F.Ends(rs[k], now, gens)
    ensures rs[k].intent.id in F.EndedIds(rs, now, gens)
  {
    if k < |rs| - 1 {
      EndedReported(rs[..|rs| - 1], now, gens, k);
    }
  }

  /** Where memory and table agreed they agree after revalidation, exactly if every ended fence was written. */
  lemma BegunAgrees(x: Setup, was: Gens, s: State, c: Call)
    requires Good(x, was, s) && Same(s)
    ensures EndsWritten(x, s, c) ==> Same(Begun(x, s, c))
    ensures !EndsWritten(x, s, c) ==>
              exists id :: Stray(Begun(x, s, c), id) && Known(Begun(x, s, c).reg.records, id)
  {
    hide F.Revalidate, F.Sound, Standing, OpenIn, Agrees, WrittenIds, CommitAllEnded, FindFence;
    var (r, ids) := F.Revalidate(s.reg, c.revalidatedAt, c.gens);
    var t := s.(reg := r, counters := s.counters.(evaluations := s.counters.evaluations + 1));
    SoundOrdered(x, s.reg);
    ReportedEnded(s.reg, c.revalidatedAt, c.gens);
    EndedOpens(x, t, ids);
    EndedKeepsRegistry(x, t, ids);
    var b := Begun(x, s, c);
    if EndsWritten(x, s, c) {
      AllWrittenAgree(x, s, c, b, ids);
    } else {
      var id :| id in ids && id !in WrittenIds(x, t, ids);
      MissedStray(x, was, s, c, b, id);
    }
  }

  lemma AllWrittenAgree(x: Setup, s: State, c: Call, b: State, ids: seq<nat>)
    requires F.Sound(x.rules, s.reg) && Same(s)
    requires F.Revalidate(s.reg, c.revalidatedAt, c.gens) == (b.reg, ids)
    requires forall id :: OpenIn(b.disk.state.fences, id) ==> id !in ids
    requires forall id :: Carried(s.disk.state.fences, b.disk.state.fences, id)
    ensures Same(b)
  {
    hide F.Revalidate, F.Sound, FindFence;
    var fs, gs := s.disk.state.fences, b.disk.state.fences;
    SoundOrdered(x, s.reg);
    forall id | OpenIn(gs, id)
      ensures Held(b.reg.records, gs[FindFence(gs, id)].intent)
    {
      assert Carried(fs, gs, id);
      var k :| 0 <= k < |s.reg.records| && OpenLife(s.reg.records[k].life)
          && s.reg.records[k].intent == fs[FindFence(fs, id)].intent;
      EndedExactly(s.reg, c.revalidatedAt, c.gens, k);
    }
  }

  lemma MissedStray(x: Setup, was: Gens, s: State, c: Call, b: State, id: nat)
    requires Good(x, was, s) && id in F.Revalidate(s.reg, c.revalidatedAt, c.gens).1
    requires b.reg == F.Revalidate(s.reg, c.revalidatedAt, c.gens).0
    requires OpenIn(s.disk.state.fences, id) ==> OpenIn(b.disk.state.fences, id)
    ensures Stray(b, id) && Known(b.reg.records, id)
  {
    hide F.Revalidate, F.OneHolder, F.Balanced, F.EndedIds, FindFence;
    var rs, ts := s.reg.records, b.reg.records;
    F.RevalidateIds(s.reg, c.revalidatedAt, c.gens);
    var i := EndedIdsClosed(rs, c.revalidatedAt, c.gens, id);
    InForceAt(x, was, rs, s.disk.state.fences, i);
    EndedExactly(s.reg, c.revalidatedAt, c.gens, i);
    IdKnown(ts, i);
    forall k | 0 <= k < |ts| && OpenLife(ts[k].life)
      ensures ts[k].intent.id != id
    {
      EndedExactly(s.reg, c.revalidatedAt, c.gens, k);
    }
  }

  // ---- issuance ----

  lemma InsertedAgrees(rs: seq<Fence>, fs: seq<Fence>, f: Fence)
    requires Agrees(rs, fs)
    ensures Agrees(F.Inserted(rs, f), fs)
  {
    hide FindFence, F.Inserted;
    F.InsertedAt(rs, f, 0);
    forall i | Held(rs, i)
      ensures Held(F.Inserted(rs, f), i)
    {
      var k :| 0 <= k < |rs| && OpenLife(rs[k].life) && rs[k].intent == i;
      F.InsertedAt(rs, f, if k < F.Slot(rs, f.intent.id) then k else k + 1);
    }
  }

  lemma InsertedUnused(rs: seq<Fence>, f: Fence, id: nat)
    requires Unused(rs, id) && id != f.intent.id
    ensures Unused(F.Inserted(rs, f), id)
  {
    hide F.Inserted;
    F.InsertedAt(rs, f, 0);
    forall j | 0 <= j < |F.Inserted(rs, f)| && OpenLife(F.Inserted(rs, f)[j].life)
      ensures F.Inserted(rs, f)[j].intent.id != id
    {
      F.InsertedAt(rs, f, j);
    }
  }

  /** What issuance leaves: the intent durable, and in memory if it lands. */
  lemma IssuanceLeaves(x: Setup, s: State, c: Call)
    requires c.scope != 0 && Complete(c.gens) && Identified(x)
    ensures var t, i := Issuance(x, s, c).0, F.IntentFor(x.rules, AskOf(x, c), c.mint);
            && i.id == c.mint.id
            && t.disk.state.fences == (if Mints(x, s, c) then PutFence(s.disk.state.fences, NewFence(i))
                                       else s.disk.state.fences)
            && t.reg.records == (if Lands(x, s, c) then F.Inserted(s.reg.records, NewFence(i)) else s.reg.records)
  {
    hide Commit, F.FirstOpenFor, F.FirstHolder, FindFence, TakesFence, F.Inserted, PutFence;
    StagedMints(x, s, c);
    CommitFence(x.store, s.disk, FENCE_INTENT, NewFence(F.IntentFor(x.rules, AskOf(x, c), c.mint)));
  }

  /** Issuance parts memory and table exactly when it mints an intent that does not land. */
  lemma IssuanceAgrees(x: Setup, s: State, c: Call)
    requires FreshMint(x, s, c) && c.scope != 0 && Complete(c.gens) && Identified(x)
    ensures var t := Issuance(x, s, c).0;
            && (Same(s) && (Mints(x, s, c) ==> Lands(x, s, c)) ==> Same(t))
            && (Mints(x, s, c) && !Lands(x, s, c) ==> Stray(t, c.mint.id))
            && (forall id :: Stray(s, id) && Known(s.reg.records, id) ==> Stray(t, id))
  {
    hide Issuance, F.Inserted, PutFence, FindFence, OpenIn, Agrees, Mints, F.IntentFor, Unused;
    var rs, fs := s.reg.records, s.disk.state.fences;
    var f := NewFence(F.IntentFor(x.rules, AskOf(x, c), c.mint));
    IssuanceLeaves(x, s, c);
    if Lands(x, s, c) {
      LandedAgrees(rs, fs, f);
    }
    forall id | Stray(s, id) && Known(rs, id)
      ensures Stray(Issuance(x, s, c).0, id)
    {
      PutOpens(fs, f, id);
      if Lands(x, s, c) {
        InsertedUnused(rs, f, id);
      }
    }
    PutOpens(fs, f, f.intent.id);
  }

  lemma LandedAgrees(rs: seq<Fence>, fs: seq<Fence>, f: Fence)
    requires OpenLife(f.life)
    ensures Agrees(rs, fs) ==> Agrees(F.Inserted(rs, f), PutFence(fs, f))
  {
    hide F.Inserted, Agrees, PutFence;
    if Agrees(rs, fs) {
      InsertedAgrees(rs, fs, f);
      var k := InsertedHas(rs, f);
      PutAgrees(F.Inserted(rs, f), fs, f);
    }
  }

  // ---- decisions and withdrawals ----

  /** A fence revoked in memory that the table does not have open parts nothing; one that it has is stray. */
  lemma RevokedAgrees(r: F.Registry, fs: seq<Fence>, id: nat, reason: Cause, now: int)
    requires F.Ordered(r.records)
    ensures var ts := F.Revoke(r, id, reason, now).0.records;
            && (Agrees(r.records, fs) && !OpenIn(fs, id) ==> Agrees(ts, fs))
            && Unused(ts, id) && (forall q :: Unused(r.records, q) ==> Unused(ts, q))
  {
    hide F.Ordered, F.OpenCount;
    var rs, ts, i := r.records, F.Revoke(r, id, reason, now).0.records, FindFence(r.records, id);
    assert forall k :: 0 <= k < |rs| && k != i ==> ts[k] == rs[k];
    forall j | Held(rs, j) && j.id != id
      ensures Held(ts, j)
    {
      var k :| 0 <= k < |rs| && OpenLife(rs[k].life) && rs[k].intent == j;
      assert ts[k] == rs[k];
    }
    RevokedUnused(rs, ts, id);
  }

  lemma RevokedUnused(rs: seq<Fence>, ts: seq<Fence>, id: nat)
    requires F.Ordered(rs) && |ts| == |rs|
    requires FindFence(rs, id) < |rs| ==> !OpenLife(ts[FindFence(rs, id)].life)
    requires forall k :: 0 <= k < |rs| && k != FindFence(rs, id) ==> ts[k] == rs[k]
    ensures Unused(ts, id)
  {
    forall k | 0 <= k < |ts| && OpenLife(ts[k].life)
      ensures ts[k].intent.id != id
    {
      OrderedFind(rs, k);
    }
  }

  lemma OrderOrdered(x: Setup, gens: Gens, s: State)
    requires InOrder(x, gens, s)
    ensures F.Ordered(s.reg.records)
  {}

  lemma DecisionTakes(x: Setup, s: State, d: Decision)
    ensures CommitDecision(x, s, d).1 == Ok <==> Takes(x.store, s.disk, DecisionPayload(d))
  {
    hide Encode, RecOf, Encodable, Pushed, DecisionLine;
  }

  /** A decision parts memory and table exactly when it carries an intent and its record is not taken. */
  lemma ConcludedAgrees(x: Setup, gens: Gens, s: State, d: Decision, endedAt: int)
    requires InOrder(x, gens, s) && (d.intent.Some? ==> OpenIn(s.disk.state.fences, d.intent.value.id))
    ensures var t := Concluded(x, s, d, endedAt).0;
            var kept := d.intent.Some? ==> Takes(x.store, s.disk, DecisionPayload(d));
            && (Same(s) && kept ==> Same(t)) && (!kept ==> Stray(t, d.intent.value.id))
            && (forall q :: Stray(s, q) ==> Stray(t, q))
  {
    hide CommitDecision, F.Revoke, Agrees, OpenIn, Unused, InOrder, Takes;
    DecisionFences(x, s, d);
    DecisionTakes(x, s, d);
    if d.intent.Some? {
      OrderOrdered(x, gens, s);
      RevokedAgrees(s.reg, s.disk.state.fences, d.intent.value.id, FenceIntentRevoked, endedAt);
    }
  }

  /** A withdrawal keeps memory and table together, and leaves strays astray. */
  lemma GatedAgrees(x: Setup, gens: Gens, s: State, c: Call)
    requires InOrder(x, gens, s)
    ensures var t := Gated(x, s, c).0;
            (Same(s) ==> Same(t)) && (forall q :: Stray(s, q) ==> Stray(t, q))
  {
    hide Commit, F.Revoke, Agrees, OpenIn, F.Sound, Standing, FindFence, PutFence;
    var rs, fs, i := s.reg.records, s.disk.state.fences, F.FirstOpenFor(s.reg.records, c.scope);
    if c.gate.authorized && i < |rs| {
      var f := Withdrawn(rs[i], c.decidedAt);
      CommitFence(x.store, s.disk, FENCE_REVOKE, f);
      if Commit(x.store, s.disk, FENCE_REVOKE, FencePayload(f)).1 == Ok {
        SoundOrdered(x, s.reg);
        WithdrawnAgrees(rs, fs, f);
        RevokedAgrees(s.reg, PutFence(fs, f), f.intent.id, FenceIntentRevoked, c.decidedAt);
      }
    }
  }

  lemma WithdrawnAgrees(rs: seq<Fence>, fs: seq<Fence>, f: Fence)
    requires !OpenLife(f.life)
    ensures Agrees(rs, fs) ==> Agrees(rs, PutFence(fs, f))
    ensures !OpenIn(PutFence(fs, f), f.intent.id)
    ensures forall q :: q != f.intent.id ==> (OpenIn(PutFence(fs, f), q) <==> OpenIn(fs, q))
  {
    hide PutFence, FindFence, Agrees, OpenIn;
    if Agrees(rs, fs) {
      PutAgrees(rs, fs, f);
    }
    forall q
      ensures OpenIn(PutFence(fs, f), q) <==> if q == f.intent.id then false else OpenIn(fs, q)
    {
      PutOpens(fs, f, q);
    }
  }

  // ---- acknowledgements and effects ----

  /** An open fence of this id has run out. */
  predicate Lapsed(rs: seq<Fence>, id: nat, at: int) {
    var k := FindFence(rs, id);
    k < |rs| && OpenLife(rs[k].life) && at >= rs[k].intent.expiresAt
  }

  /** A fence that lapses in memory keeps its place in the table: nothing is written for it. */
  lemma LapsedStray(x: Setup, gens: Gens, s: State, t: State, id: nat)
    requires InOrder(x, gens, s) && t.disk == s.disk && FindFence(s.reg.records, id) < |s.reg.records|
    requires var k := FindFence(s.reg.records, id);
             OpenLife(s.reg.records[k].life) && t.reg.records == s.reg.records[k := F.Expired(s.reg.records[k])]
    ensures Stray(t, id)
  {
    hide F.Ordered, F.OneHolder, F.Balanced;
    var rs, k := s.reg.records, FindFence(s.reg.records, id);
    SoundOrdered(x, s.reg);
    InForceAt(x, gens, rs, s.disk.state.fences, k);
    RevokedUnused(rs, t.reg.records, id);
  }

  /** A record that moves on, open before and after under the same intent. */
  lemma MovedAgrees(rs: seq<Fence>, fs: seq<Fence>, k: nat, g: Fence)
    requires k < |rs| && OpenLife(rs[k].life) && OpenLife(g.life) && g.intent == rs[k].intent
    ensures Agrees(rs, fs) ==> Agrees(rs[k := g], fs) && Agrees(rs[k := g], PutFence(fs, g))
  {
    hide FindFence, PutFence, OpenIn;
    var ts := rs[k := g];
    forall i | Held(rs, i)
      ensures Held(ts, i)
    {
      var j :| 0 <= j < |rs| && OpenLife(rs[j].life) && rs[j].intent == i;
      assert OpenLife(ts[j].life) && ts[j].intent == i;
    }
    if Agrees(rs, fs) {
      MovedHeld(rs, ts, fs);
      assert ts[k] == g;
      PutAgrees(ts, fs, g);
    }
  }

  lemma MovedHeld(rs: seq<Fence>, ts: seq<Fence>, fs: seq<Fence>)
    requires Agrees(rs, fs) && forall i :: Held(rs, i) ==> Held(ts, i)
    ensures Agrees(ts, fs)
  {
    hide FindFence, Held;
  }

  lemma PublishedAgrees(x: Setup, s: State, r: F.Registry, id: nat, kind: nat, g: Fence)
    requires Same(s) && FindFence(s.reg.records, id) < |s.reg.records|
    requires var k := FindFence(s.reg.records, id);
             OpenLife(s.reg.records[k].life) && OpenLife(g.life) && g.intent == s.reg.records[k].intent
             && r.records == s.reg.records[k := g]
    ensures Same(Published(x, s.(reg := r), id, kind))
  {
    hide Commit, FindFence, PutFence, Agrees;
    var k := FindFence(s.reg.records, id);
    FindKept(s.reg.records, id, g);
    MovedAgrees(s.reg.records, s.disk.state.fences, k, g);
    CommitFence(x.store, s.disk, kind, g);
  }

  lemma FindKept(rs: seq<Fence>, id: nat, g: Fence)
    requires FindFence(rs, id) < |rs| && g.intent == rs[FindFence(rs, id)].intent
    ensures FindFence(rs[FindFence(rs, id) := g], id) == FindFence(rs, id)
  {
    hide FindFence;
    FindUpdated(rs, FindFence(rs, id), g);
  }

  lemma AcknowledgeAgrees(x: Setup, gens: Gens, s: State, id: nat, owner: nat, at: int)
    requires InOrder(x, gens, s) && Same(s)
    ensures Same(AcknowledgeFence(x, s, id, owner, at).0) <==> !(s.disk.isOpen && Lapsed(s.reg.records, id, at))
  {
    hide InOrder, FindFence, Agrees, Published;
    var (r, o) := F.Acknowledge(s.reg, id, owner, at);
    var k := FindFence(s.reg.records, id);
    if s.disk.isOpen && k < |s.reg.records| && OpenLife(s.reg.records[k].life) {
      if at >= s.reg.records[k].intent.expiresAt {
        LapsedStray(x, gens, s, s.(reg := r), id);
        StrayDisagrees(s.(reg := r), id);
      } else {
        PublishedAgrees(x, s, r, id, FENCE_ACK, r.records[k]);
      }
    }
  }

  lemma ReportAgrees(x: Setup, gens: Gens, s: State, id: nat, owner: nat, verified: bool, at: int)
    requires InOrder(x, gens, s) && Same(s)
    ensures Same(ReportEffect(x, s, id, owner, verified, at).0) <==> !(s.disk.isOpen && Lapsed(s.reg.records, id, at))
  {
    hide InOrder, FindFence, Agrees, Published;
    var (r, o) := F.ReportEffect(s.reg, id, owner, verified, at);
    var k := FindFence(s.reg.records, id);
    if s.disk.isOpen && k < |s.reg.records| && OpenLife(s.reg.records[k].life) {
      if at >= s.reg.records[k].intent.expiresAt {
        LapsedStray(x, gens, s, s.(reg := r), id);
        StrayDisagrees(s.(reg := r), id);
      } else {
        PublishedAgrees(x, s, r, id, FENCE_EFFECT, r.records[k]);
      }
    }
  }

  // ---- one call, and every run ----

  /** The call parts memory and table: a fence has ended in memory alone, or is open in the table alone. */
  predicate Strands(x: Setup, s: State, op: Op) {
    match op
    case Evaluating(c) =>
      Admitted(s, c) &&
      (!EndsWritten(x, s, c)
       || (RungOf(c.diagnosis) == Authorization && Mints(x, Begun(x, s, c), c) && !Lands(x, Begun(x, s, c), c))
       || Withheld(x, Begun(x, s, c), c))
    case Restoring(c) => Admitted(s, c) && !EndsWritten(x, s, c)
    case Acknowledging(id, _, at) => s.disk.isOpen && Lapsed(s.reg.records, id, at)
    case Reporting(id, _, _, at) => s.disk.isOpen && Lapsed(s.reg.records, id, at)
    case Enriching(_) => false
    case Checkpointing => false
  }

  /** The decision would carry an intent, and its record is not taken. */
  predicate Withheld(x: Setup, b: State, c: Call) {
    var (t, intent) := Authorized(x, b, c);
    intent.Some? && !Takes(x.store, t.disk, DecisionPayload(DecisionOf(x, c, intent)))
  }

  lemma IntentOpen(x: Setup, s: State, c: Call, i: Intent)
    requires IntentOf(x, s, c, i)
    ensures OpenIn(s.disk.state.fences, i.id)
  {
    hide FindFence;
  }

  lemma EvaluateAgrees(x: Setup, was: Gens, s: State, c: Call)
    requires Good(x, was, s) && Same(s) && Identified(x) && FreshCall(x, s, c)
    ensures Same(Evaluate(x, s, c).0) <==> !Strands(x, s, Evaluating(c))
  {
    hide F.Sound, Standing, Begun, Issuance, Concluded, EndsWritten, Mints, Lands, Takes, FreshMint, Agrees, Stray;
    hide Known, IntentOf, RungOf, OpenIn;
    hide NoOpenFor, OnlyNew;
    if Admitted(s, c) {
      var b := Begun(x, s, c);
      BegunKeeps(x, was, s, c);
      BegunAgrees(x, was, s, c);
      AuthorizedKeeps(x, b, c);
      var (t, intent) := Authorized(x, b, c);
      var d := DecisionOf(x, c, intent);
      if RungOf(c.diagnosis) == Authorization {
        IssuanceAgrees(x, b, c);
      }
      if intent.Some? {
        IntentOpen(x, t, c, intent.value);
      }
      ConcludedAgrees(x, c.gens, t, d, c.endedAt);
      var u := Concluded(x, t, d, c.endedAt).0;
      forall id | Stray(u, id)
        ensures !Same(u)
      {
        StrayDisagrees(u, id);
      }
    }
  }

  lemma RestoreAgrees(x: Setup, was: Gens, s: State, c: Call)
    requires Good(x, was, s) && Same(s)
    ensures Same(Restore(x, s, c).0) <==> !Strands(x, s, Restoring(c))
  {
    hide F.Sound, Standing, Begun, Gated, CommitDecision, EndsWritten, Agrees, Stray, Known;
    if Admitted(s, c) {
      var b := Begun(x, s, c);
      BegunKeeps(x, was, s, c);
      BegunAgrees(x, was, s, c);
      GatedAgrees(x, c.gens, b, c);
      var (t, rung, cause) := Gated(x, b, c);
      DecisionFences(x, t, RestorationOf(x, c, rung, cause));
      forall id | Stray(t, id)
        ensures !Same(t)
      {
        StrayDisagrees(t, id);
      }
    }
  }

  /** One call on a state where memory and table agree: they agree afterwards exactly unless it strands a fence. */
  lemma DoAgrees(x: Setup, was: Gens, s: State, op: Op)
    requires Good(x, was, s) && Same(s) && Identified(x) && (op.Evaluating? ==> FreshCall(x, s, op.call))
    ensures Same(Do(x, s, op)) <==> !Strands(x, s, op)
  {
    hide InOrder, Evaluate, Restore, AcknowledgeFence, ReportEffect, Agrees, EndsWritten, Withheld, Lapsed, Begun;
    hide CommitDecision, FreshCall;
    match op
    case Evaluating(c) => EvaluateAgrees(x, was, s, c);
    case Restoring(c) => RestoreAgrees(x, was, s, c);
    case Acknowledging(id, owner, at) => AcknowledgeAgrees(x, was, s, id, owner, at);
    case Reporting(id, owner, verified, at) => ReportAgrees(x, was, s, id, owner, verified, at);
    case Enriching(d) => DecisionFences(x, s.(counters := s.counters.(enrichments := s.counters.enrichments + 1)), d);
    case Checkpointing => CheckpointKeeps(x, was, s);
  }

  /** Memory and table agree in every state of the run. */
  ghost predicate AlwaysSame(x: Setup, s: State, ops: seq<Op>)
    decreases |ops|
  {
    Same(s) && (ops == [] || AlwaysSame(x, Do(x, s, ops[0]), ops[1..]))
  }

  predicate NeverStrands(x: Setup, s: State, ops: seq<Op>)
    decreases |ops|
  {
    ops == [] || (!Strands(x, s, ops[0]) && NeverStrands(x, Do(x, s, ops[0]), ops[1..]))
  }

  lemma {:induction false} RunAgrees(x: Setup, was: Gens, s: State, ops: seq<Op>)
    requires Good(x, was, s) && Same(s) && Identified(x) && FreshAlong(x, s, ops)
    ensures AlwaysSame(x, s, ops) <==> NeverStrands(x, s, ops)
    decreases |ops|
  {
    hide Good, Same, Do, Under, Strands, FreshCall;
    if ops != [] {
      DoAgrees(x, was, s, ops[0]);
      DoKeeps(x, was, s, ops[0]);
      if Same(Do(x, s, ops[0])) {
        RunAgrees(x, Under(s, was, ops[0]), Do(x, s, ops[0]), ops[1..]);
      } else {
        NotSame(x, Do(x, s, ops[0]), ops[1..]);
      }
    }
  }

  lemma NotSame(x: Setup, s: State, ops: seq<Op>)
    requires !Same(s)
    ensures !AlwaysSame(x, s, ops)
  {
    hide Same;
  }

  /**
   * From an opening that left no fence open: table and memory agree all along a run exactly if no call strands a fence.
   */
  lemma OpenFencesAgree(x: Setup, d: Disk, gens: Gens, ops: seq<Op>)
    requires Identified(x) && FreshAlong(x, Opened(d), ops) && NoneOpen(d.state.fences)
    ensures AlwaysSame(x, Opened(d), ops) <==> NeverStrands(x, Opened(d), ops)
  {
    hide Good, FreshAlong, AlwaysSame, NeverStrands, Opened, FindFence;
    OpenedParts(d);
    OpenedGood(x, d, gens);
    RunAgrees(x, gens, Opened(d), ops);
  }
}
