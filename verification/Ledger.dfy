/** The live evidence ledger: admission, source sequencing with bounded rollover, bounded retention. */
module Ledger {
  const HALF_SPACE: nat := 0x8000_0000_0000_0000
  const MAX_ROLLOVERS: nat := 4

  /** One observation; whether it is structurally valid is decided elsewhere, and a nil attempt is zero. */
  datatype Evidence = Evidence(
    sound: bool, scope: nat, source: nat, seqNumber: nat, attempt: nat, observedAt: int, freshFrom: int, freshTo: int)

  datatype Admission =
    | Accepted | RolloverAccepted | DuplicateAttempt | Regression | StructurallyInvalid | OutOfFreshnessWindow
    | ClockSkewExceeded | CapacityExhausted

  predicate Taken(a: Admission) {
    a.Accepted? || a.RolloverAccepted?
  }

  /** A source's place in its sequence, and its own accounting. */
  datatype Cursor = Cursor(
    last: nat, lastAttempt: nat, rollovers: nat, lastObserved: int, observed: nat, accepted: nat, rejected: nat,
    duplicates: nat, regressed: nat)

  datatype ScopeState = ScopeState(items: seq<Evidence>, cursors: map<nat, Cursor>, evictions: nat)

  datatype Book = Book(scopes: map<nat, ScopeState>, retained: int, seen: nat, dropped: nat, admitted: nat,
                       rejected: nat)

  datatype Limits = Limits(skew: int, evidence: nat, scopes: nat, sources: nat)

  function NewCursor(): Cursor {
    Cursor(0, 0, 0, 0, 0, 0, 0, 0, 0)
  }

  function Empty(): Book {
    Book(map[], 0, 0, 0, 0, 0)
  }

  predicate Fresh(e: Evidence, now: int) {
    e.freshFrom < e.freshTo && e.freshFrom <= now < e.freshTo
  }

  predicate Older(a: Evidence, b: Evidence) {
    a.observedAt < b.observedAt || (a.observedAt == b.observedAt && a.seqNumber < b.seqNumber)
  }

  /** The first of the oldest among the first n items. */
  function Victim(items: seq<Evidence>, n: nat): (v: nat)
    requires 0 < n <= |items|
    ensures v < n && (forall i :: 0 <= i < n ==> !Older(items[i], items[v]))
    ensures forall i :: 0 <= i < v ==> Older(items[v], items[i])
  {
    if n == 1 then 0
    else
      var w := Victim(items, n - 1);
      if Older(items[n - 1], items[w]) then n - 1 else w
  }

  /** Bounded retention: the oldest observation goes when the scope is full. */
  function Kept(items: seq<Evidence>, bound: nat): (r: seq<Evidence>)
    ensures |r| == if 0 < bound <= |items| then |items| - 1 else |items|
  {
    if 0 < bound <= |items| then
      var v := Victim(items, |items|);
      items[..v] + items[v + 1..]
    else items
  }

  /** What the cursor says of an observation. */
  function Judge(c: Cursor, e: Evidence): Admission {
    if c.accepted == 0 then Accepted
    else if e.seqNumber == c.last || (e.attempt != 0 && e.attempt == c.lastAttempt) then DuplicateAttempt
    else if e.seqNumber >= c.last then Accepted
    else if c.last >= HALF_SPACE && e.seqNumber < HALF_SPACE && c.rollovers < MAX_ROLLOVERS then RolloverAccepted
    else Regression
  }

  function Moved(c: Cursor, e: Evidence): Cursor {
    var a := Judge(c, e);
    var d := c.(observed := c.observed + 1);
    if a.DuplicateAttempt? then d.(duplicates := d.duplicates + 1, rejected := d.rejected + 1)
    else if a.Regression? then d.(regressed := d.regressed + 1, rejected := d.rejected + 1)
    else
      d.(rollovers := if a.RolloverAccepted? then d.rollovers + 1 else d.rollovers, last := e.seqNumber,
         lastAttempt := if e.attempt != 0 then e.attempt else d.lastAttempt, lastObserved := e.observedAt,
         accepted := d.accepted + 1)
  }

  function Refused(b: Book): Book {
    b.(rejected := b.rejected + 1)
  }

  /** The state of a scope, new ones empty. */
  function ScopeOf(b: Book, scope: nat): ScopeState {
    if scope in b.scopes then b.scopes[scope] else ScopeState([], map[], 0)
  }

  function CursorOf(b: Book, scope: nat, source: nat): Cursor {
    var st := ScopeOf(b, scope);
    if source in st.cursors then st.cursors[source] else NewCursor()
  }

  /** The observation of a tracked scope and source. */
  function Sequenced(p: Limits, b: Book, e: Evidence): (Book, Admission) {
    var st := ScopeOf(b, e.scope);
    var c := CursorOf(b, e.scope, e.source);
    var a := Judge(c, e);
    var moved := st.(cursors := st.cursors[e.source := Moved(c, e)]);
    if !Taken(a) then (Refused(b.(scopes := b.scopes[e.scope := moved])), a)
    else
      var evict := |st.items| >= p.evidence;
      var kept := moved.(items := Kept(st.items, p.evidence) + [e],
                         evictions := st.evictions + (if evict then 1 else 0));
      (b.(scopes := b.scopes[e.scope := kept], retained := b.retained + (if evict then 0 else 1),
          dropped := b.dropped + (if evict then 1 else 0), admitted := b.admitted + 1), a)
  }

  function Admit(p: Limits, was: Book, e: Evidence, now: int): (Book, Admission) {
    var b := was.(seen := was.seen + 1);
    if !e.sound then (Refused(b), StructurallyInvalid)
    else if e.observedAt > now + p.skew then (Refused(b), ClockSkewExceeded)
    else if !Fresh(e, now) then (Refused(b), OutOfFreshnessWindow)
    else if e.scope !in b.scopes && |b.scopes| >= p.scopes then (Refused(b), CapacityExhausted)
    else if e.source !in ScopeOf(b, e.scope).cursors && |ScopeOf(b, e.scope).cursors| >= p.sources then
      (Refused(b.(scopes := b.scopes[e.scope := ScopeOf(b, e.scope)])), CapacityExhausted)
    else Sequenced(p, b, e)
  }

  // ---- accounting ----

  /** The observations retained over all scopes. */
  ghost function Total(m: map<nat, ScopeState>): nat
    decreases |m|
  {
    if m == map[] then 0
    else
      var k :| k in m;
      |m[k].items| + Total(m - {k})
  }

  lemma {:induction false} TotalWithout(m: map<nat, ScopeState>, k: nat)
    requires k in m
    ensures Total(m) == |m[k].items| + Total(m - {k})
    decreases |m|
  {
    var j :| j in m && Total(m) == |m[j].items| + Total(m - {j});
    if j != k {
      TotalWithout(m - {j}, k);
      assert (m - {j}) - {k} == (m - {k}) - {j};
      TotalWithout(m - {k}, j);
    }
  }

  lemma TotalUpdate(m: map<nat, ScopeState>, k: nat, st: ScopeState)
    ensures Total(m[k := st]) == Total(m) - (if k in m then |m[k].items| else 0) + |st.items|
  {
    var t := m[k := st];
    TotalWithout(t, k);
    if k in m {
      TotalWithout(m, k);
      assert t - {k} == m - {k};
    } else {
      assert t - {k} == m;
    }
  }

  predicate ScopeOk(p: Limits, st: ScopeState) {
    && |st.items| <= p.evidence && |st.cursors| <= p.sources
    && forall s :: s in st.cursors ==> st.cursors[s].observed == st.cursors[s].accepted + st.cursors[s].rejected
                                       && st.cursors[s].rollovers <= MAX_ROLLOVERS
  }

  ghost predicate AllOk(p: Limits, m: map<nat, ScopeState>) {
    forall k :: k in m ==> ScopeOk(p, m[k])
  }

  /** Every observation is admitted or rejected, every admitted one retained or dropped, and every table bounded. */
  ghost predicate Closed(p: Limits, b: Book) {
    && b.seen == b.admitted + b.rejected && b.admitted == b.retained + b.dropped && b.retained == Total(b.scopes)
    && |b.scopes| <= p.scopes && AllOk(p, b.scopes)
  }

  lemma CardinalityUpdate<V>(m: map<nat, V>, k: nat, v: V)
    ensures |m[k := v]| == if k in m then |m| else |m| + 1
  {
    var t := m[k := v];
    assert t.Keys == m.Keys + {k};
    assert |t| == |t.Keys| && |m| == |m.Keys|;
  }

  lemma MovedOk(p: Limits, st: ScopeState, source: nat, c: Cursor, e: Evidence)
    requires ScopeOk(p, st) && c == (if source in st.cursors then st.cursors[source] else NewCursor())
    requires source in st.cursors || |st.cursors| < p.sources
    ensures ScopeOk(p, st.(cursors := st.cursors[source := Moved(c, e)]))
  {
    CardinalityUpdate(st.cursors, source, Moved(c, e));
  }

  lemma ScopeOfOk(p: Limits, b: Book, scope: nat)
    requires Closed(p, b)
    ensures ScopeOk(p, ScopeOf(b, scope))
            && |ScopeOf(b, scope).items| == if scope in b.scopes then |b.scopes[scope].items| else 0
  {
    hide Total;
  }

  lemma ScopesUpdate(p: Limits, m: map<nat, ScopeState>, k: nat, st: ScopeState)
    requires AllOk(p, m) && ScopeOk(p, st)
    ensures AllOk(p, m[k := st])
  {
    hide ScopeOk;
    var t := m[k := st];
    forall j | j in t
      ensures ScopeOk(p, t[j])
    {
      if j != k {
        assert t[j] == m[j];
      }
    }
  }

  /** What a sequenced observation leaves of its scope. */
  function Left(p: Limits, st: ScopeState, c: Cursor, e: Evidence): ScopeState {
    var moved := st.(cursors := st.cursors[e.source := Moved(c, e)]);
    if !Taken(Judge(c, e)) then moved
    else
      moved.(items := Kept(st.items, p.evidence) + [e],
             evictions := st.evictions + (if |st.items| >= p.evidence then 1 else 0))
  }

  lemma LeftOk(p: Limits, st: ScopeState, c: Cursor, e: Evidence)
    requires p.evidence > 0 && ScopeOk(p, st)
             && c == (if e.source in st.cursors then st.cursors[e.source] else NewCursor())
    requires e.source in st.cursors || |st.cursors| < p.sources
    ensures ScopeOk(p, Left(p, st, c, e))
    ensures |Left(p, st, c, e).items| == |st.items| + (if Taken(Judge(c, e)) && |st.items| < p.evidence then 1 else 0)
  {
    hide Moved, Judge;
    MovedOk(p, st, e.source, c, e);
  }

  lemma SequencedLeaves(p: Limits, b: Book, e: Evidence)
    ensures var st, c := ScopeOf(b, e.scope), CursorOf(b, e.scope, e.source);
            Sequenced(p, b, e).0.scopes == b.scopes[e.scope := Left(p, st, c, e)]
  {
    hide Moved, Judge, Kept;
  }

  lemma SequencedCloses(p: Limits, b: Book, e: Evidence)
    requires p.evidence > 0 && Closed(p, b.(rejected := b.rejected + 1))
    requires e.scope in b.scopes || |b.scopes| < p.scopes
    requires var st := ScopeOf(b, e.scope); e.source in st.cursors || |st.cursors| < p.sources
    ensures Closed(p, Sequenced(p, b, e).0)
  {
    hide Total, Judge, Moved, Kept, ScopeOk, AllOk, Left;
    var st, c := ScopeOf(b, e.scope), CursorOf(b, e.scope, e.source);
    ScopeOfOk(p, b.(rejected := b.rejected + 1), e.scope);
    LeftOk(p, st, c, e);
    SequencedLeaves(p, b, e);
    TotalUpdate(b.scopes, e.scope, Left(p, st, c, e));
    CardinalityUpdate(b.scopes, e.scope, Left(p, st, c, e));
    ScopesUpdate(p, b.scopes, e.scope, Left(p, st, c, e));
  }

  /** Admission keeps all the accounting identities and bounds. */
  lemma AdmitCloses(p: Limits, b: Book, e: Evidence, now: int)
    requires p.evidence > 0 && Closed(p, b)
    ensures Closed(p, Admit(p, b, e, now).0)
  {
    hide Total, Sequenced, ScopeOk, Fresh, AllOk;
    var c := b.(seen := b.seen + 1);
    ScopeOfOk(p, b, e.scope);
    assert ScopeOf(c, e.scope) == ScopeOf(b, e.scope);
    if e.scope in b.scopes || |b.scopes| < p.scopes {
      var st := ScopeOf(b, e.scope);
      if e.source in st.cursors || |st.cursors| < p.sources {
        assert c.(rejected := c.rejected + 1).scopes == b.scopes;
        SequencedCloses(p, c, e);
      } else {
        TotalUpdate(b.scopes, e.scope, st);
        CardinalityUpdate(b.scopes, e.scope, st);
        ScopesUpdate(p, b.scopes, e.scope, st);
      }
    }
  }

  // ---- sequencing over whole runs ----

  /** One observation and the clock when it arrived. */
  datatype Arrival = Arrival(evidence: Evidence, now: int)

  function After(p: Limits, b: Book, arrivals: seq<Arrival>): Book {
    if arrivals == [] then b
    else
      var n := |arrivals| - 1;
      Admit(p, After(p, b, arrivals[..n]), arrivals[n].evidence, arrivals[n].now).0
  }

  /** The accounting over every run. */
  lemma {:induction false} RunCloses(p: Limits, arrivals: seq<Arrival>)
    requires p.evidence > 0
    ensures Closed(p, After(p, Empty(), arrivals))
  {
    hide Closed, Admit;
    if arrivals == [] {
      EmptyCloses(p);
    } else {
      var n := |arrivals| - 1;
      RunCloses(p, arrivals[..n]);
      AdmitCloses(p, After(p, Empty(), arrivals[..n]), arrivals[n].evidence, arrivals[n].now);
    }
  }

  lemma EmptyCloses(p: Limits)
    ensures Closed(p, Empty())
  {}

  /** The place of an acceptance: how often the counter had wrapped, and the number. */
  datatype Place = Place(rollovers: nat, number: nat)

  predicate Below(a: Place, b: Place) {
    a.rollovers < b.rollovers || (a.rollovers == b.rollovers && a.number < b.number)
  }

  /** The places at which a source's observations of a scope were accepted, in order. */
  function Places(p: Limits, arrivals: seq<Arrival>, scope: nat, source: nat): seq<Place> {
    if arrivals == [] then []
    else
      var n := |arrivals| - 1;
      var before := After(p, Empty(), arrivals[..n]);
      var (after, a) := Admit(p, before, arrivals[n].evidence, arrivals[n].now);
      var rest := Places(p, arrivals[..n], scope, source);
      if Taken(a) && arrivals[n].evidence.scope == scope && arrivals[n].evidence.source == source then
        rest + [PlaceOf(CursorOf(after, scope, source))]
      else rest
  }

  function PlaceOf(c: Cursor): Place {
    Place(c.rollovers, c.last)
  }

  ghost predicate Climbing(s: seq<Place>) {
    forall i, j :: 0 <= i < j < |s| ==> Below(s[i], s[j])
  }

  /** The cursor remembers how many were accepted and where the last one was. */
  ghost predicate Remembers(c: Cursor, s: seq<Place>) {
    c.accepted == |s| && (s == [] ==> c.rollovers == 0) && (s != [] ==> s[|s| - 1] == PlaceOf(c))
      && c.rollovers <= MAX_ROLLOVERS
  }

  /** An admission moves the cursor of its own scope and source, if any, and no other. */
  lemma AdmitMoves(p: Limits, b: Book, e: Evidence, now: int, scope: nat, source: nat)
    ensures var (t, a) := Admit(p, b, e, now);
            var c, d := CursorOf(b, scope, source), CursorOf(t, scope, source);
            && (d == c || (scope == e.scope && source == e.source && d == Moved(c, e) && a == Judge(c, e)))
            && (Taken(a) && scope == e.scope && source == e.source ==> d == Moved(c, e) && a == Judge(c, e))
  {
    hide Judge, Moved, Kept, Fresh;
  }

  /** An acceptance climbs; a rejection leaves the place alone. */
  lemma MovedClimbs(c: Cursor, e: Evidence)
    requires c.rollovers <= MAX_ROLLOVERS
    ensures Taken(Judge(c, e)) ==> Moved(c, e).accepted == c.accepted + 1 && PlaceOf(Moved(c, e)).number == e.seqNumber
                                   && (c.accepted > 0 ==> Below(PlaceOf(c), PlaceOf(Moved(c, e))))
                                   && (c.accepted == 0 ==> Moved(c, e).rollovers == c.rollovers)
    ensures !Taken(Judge(c, e)) ==> PlaceOf(Moved(c, e)) == PlaceOf(c) && Moved(c, e).accepted == c.accepted
    ensures Moved(c, e).rollovers <= MAX_ROLLOVERS
  {}

  lemma ClimbsOn(s: seq<Place>, x: Place)
    requires Climbing(s) && (s != [] ==> Below(s[|s| - 1], x))
    ensures Climbing(s + [x])
  {}

  /** Over any run a source's acceptances climb strictly, and its cursor is at the last of them. */
  lemma {:induction false} AcceptancesClimb(p: Limits, arrivals: seq<Arrival>, scope: nat, source: nat)
    ensures var s := Places(p, arrivals, scope, source);
            Climbing(s) && Remembers(CursorOf(After(p, Empty(), arrivals), scope, source), s)
    ensures forall i :: 0 <= i < |Places(p, arrivals, scope, source)| ==>
              Places(p, arrivals, scope, source)[i].rollovers <= MAX_ROLLOVERS
  {
    hide Admit, Judge, Moved, Taken, Climbing, Below;
    if arrivals == [] {
      NoPlaces();
    } else {
      var n := |arrivals| - 1;
      var b, e := After(p, Empty(), arrivals[..n]), arrivals[n].evidence;
      AcceptancesClimb(p, arrivals[..n], scope, source);
      AdmitMoves(p, b, e, arrivals[n].now, scope, source);
      var c := CursorOf(b, scope, source);
      MovedClimbs(c, e);
      if Taken(Judge(c, e)) {
        ClimbsOn(Places(p, arrivals[..n], scope, source), PlaceOf(Moved(c, e)));
      }
    }
  }

  lemma NoPlaces()
    ensures Climbing([])
  {}

  // ---- a replayed number ----

  function Times(s: seq<Place>, number: nat): nat {
    if s == [] then 0 else Times(s[..|s| - 1], number) + (if s[|s| - 1].number == number then 1 else 0)
  }

  /** In a climbing run a number comes at most once between two rollovers. */
  lemma {:induction false} OncePerRollover(s: seq<Place>, number: nat)
    requires Climbing(s)
    ensures s != [] ==> Times(s, number) <= s[|s| - 1].rollovers + (if s[|s| - 1].number >= number then 1 else 0)
  {
    if s != [] {
      var front := s[..|s| - 1];
      OncePerRollover(front, number);
      if front != [] {
        assert Below(s[|s| - 2], s[|s| - 1]);
      } else {
        assert Times(front, number) == 0;
      }
    }
  }

  /** One sequence number of one source is accepted at most five times in all, however often it is replayed. */
  lemma AtMostFive(p: Limits, arrivals: seq<Arrival>, scope: nat, source: nat, number: nat)
    ensures Times(Places(p, arrivals, scope, source), number) <= MAX_ROLLOVERS + 1
  {
    hide Places, Climbing, Times;
    AcceptancesClimb(p, arrivals, scope, source);
    OncePerRollover(Places(p, arrivals, scope, source), number);
    NoTimes(number);
  }

  lemma NoTimes(number: nat)
    ensures Times([], number) == 0
  {}

  // ---- the ledger object ----

  class EvidenceLedger {
    const limits: Limits
    var scopes: map<nat, ScopeState>
    var retained: int
    var seen: nat
    var dropped: nat
    var admitted: nat
    var rejected: nat

    constructor (limits: Limits)
      ensures this.limits == limits && Contents() == Empty()
    {
      this.limits := limits;
      scopes, retained, seen, dropped, admitted, rejected := map[], 0, 0, 0, 0, 0;
    }

    function Contents(): Book
      reads this
    {
      Book(scopes, retained, seen, dropped, admitted, rejected)
    }

    method Reset()
      modifies this
      ensures Contents() == Empty()
    {
      scopes, retained, seen, dropped, admitted, rejected := map[], 0, 0, 0, 0, 0;
    }

    /** The oldest observation, searched in one pass. */
    static method FindVictim(items: seq<Evidence>) returns (victim: nat)
      requires items != []
      ensures victim == Victim(items, |items|)
    {
      victim := 0;
      var i := 1;
      while i < |items|
        invariant 1 <= i <= |items| && victim == Victim(items, i)
      {
        if Older(items[i], items[victim]) {
          victim := i;
        }
        i := i + 1;
      }
    }

    method RejectOne()
      modifies this`rejected
      ensures rejected == old(rejected) + 1
    {
      rejected := rejected + 1;
    }

    /** The cursor's own verdict on an observation, and where it moves. */
    method Judged(was: Cursor, e: Evidence) returns (cursor: Cursor, a: Admission)
      ensures cursor == Moved(was, e) && a == Judge(was, e)
    {
      cursor := was.(observed := was.observed + 1);
      a := Accepted;
      if cursor.accepted > 0 {
        if e.seqNumber == cursor.last || (e.attempt != 0 && e.attempt == cursor.lastAttempt) {
          cursor := cursor.(duplicates := cursor.duplicates + 1);
          cursor := cursor.(rejected := cursor.rejected + 1);
          return cursor, DuplicateAttempt;
        }
        if e.seqNumber < cursor.last {
          if cursor.last >= HALF_SPACE && e.seqNumber < HALF_SPACE && cursor.rollovers < MAX_ROLLOVERS {
            cursor := cursor.(rollovers := cursor.rollovers + 1);
            a := RolloverAccepted;
          } else {
            cursor := cursor.(regressed := cursor.regressed + 1);
            cursor := cursor.(rejected := cursor.rejected + 1);
            return cursor, Regression;
          }
        }
      }
      cursor := cursor.(last := e.seqNumber);
      if e.attempt != 0 {
        cursor := cursor.(lastAttempt := e.attempt);
      }
      cursor := cursor.(lastObserved := e.observedAt);
      cursor := cursor.(accepted := cursor.accepted + 1);
    }

    /** The cursor and the retained items of a tracked scope and source. */
    method Sequence(e: Evidence) returns (a: Admission)
      requires limits.evidence > 0
      modifies this
      ensures (Contents(), a) == Sequenced(limits, old(Contents()), e)
    {
      hide Victim, Older, Moved, Judge;
      var st := if e.scope in scopes then scopes[e.scope] else ScopeState([], map[], 0);
      var cursor := if e.source in st.cursors then st.cursors[e.source] else NewCursor();
      cursor, a := Judged(cursor, e);
      if !Taken(a) {
        scopes := scopes[e.scope := st.(cursors := st.cursors[e.source := cursor])];
        RejectOne();
        return;
      }
      var items, evictions := st.items, st.evictions;
      if |items| >= limits.evidence {
        var victim := FindVictim(items);
        items := items[..victim] + items[victim + 1..];
        retained, dropped, evictions := retained - 1, dropped + 1, evictions + 1;
      }
      items := items + [e];
      retained, admitted := retained + 1, admitted + 1;
      scopes := scopes[e.scope := ScopeState(items, st.cursors[e.source := cursor], evictions)];
    }

    method DoAdmit(e: Evidence, now: int) returns (a: Admission)
      requires limits.evidence > 0
      modifies this
      ensures (Contents(), a) == Admit(limits, old(Contents()), e, now)
    {
      hide Sequenced;
      seen := seen + 1;
      if !e.sound {
        RejectOne();
        return StructurallyInvalid;
      }
      if e.observedAt > now + limits.skew {
        RejectOne();
        return ClockSkewExceeded;
      }
      if !Fresh(e, now) {
        RejectOne();
        return OutOfFreshnessWindow;
      }
      if e.scope !in scopes && |scopes| >= limits.scopes {
        RejectOne();
        return CapacityExhausted;
      }
      var st := if e.scope in scopes then scopes[e.scope] else ScopeState([], map[], 0);
      if e.source !in st.cursors && |st.cursors| >= limits.sources {
        scopes := scopes[e.scope := st];
        RejectOne();
        return CapacityExhausted;
      }
      a := Sequence(e);
    }
  }
}
