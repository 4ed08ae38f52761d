/** Scanning a journal: replay of intact records, torn tails, sequence continuity and bounds. */
module Journal {
  import opened Crc
  import opened Bytes
  import opened Records

  /** The read bounds: payload bytes, file bytes, records. */
  datatype Bounds = Bounds(payload: nat, bytes: nat, records: nat)

  datatype Turn =
    | Clean
    | Torn
    | Zeroed
    | Refused(why: Outcome)
    | Next(record: Rec, rest: seq<byte>)

  /** One turn of the scan at the unread bytes d, expecting the given record number. */
  function Look(maxPayload: nat, d: seq<byte>, expected: nat): (t: Turn)
    ensures t.Next? ==> |t.rest| + HEADER + TRAILER <= |d|
    ensures t.Refused? ==> t.why != Ok
  {
    if |d| == 0 then Clean
    else if |d| < HEADER then
      if AllZero(d) then Zeroed
      else if !ValidPrefix(d, maxPayload) then Refused(Corrupt)
      else Torn
    else if Field(d, 0, 4) != JOURNAL_MAGIC then
      if AllZero(d) then Zeroed else Refused(Corrupt)
    else if CheckHeader(d[..HEADER], maxPayload) != Ok then Refused(CheckHeader(d[..HEADER], maxPayload))
    else if Field(d, 8, 8) != expected then Refused(Corrupt)
    else
      var body := HEADER + Field(d, 16, 4);
      if body + TRAILER > |d| then
        if !ValidPrefix(d[..HEADER], maxPayload) then Refused(Corrupt) else Torn
      else if Checksum(d[..body]) != Field(d, body, 4) then Refused(Corrupt)
      else Next(Rec(Field(d, 6, 2), Field(d, 8, 8), d[HEADER..body]), d[body + TRAILER..])
  }

  /** Replays one record into a state, or refuses it. */
  type Visit<!S> = (S, Rec) -> (S, Outcome)

  /** The scan's report, with the replayed state and the records visited. */
  datatype Scan<S> = Scan(outcome: Outcome, state: S, records: seq<Rec>, valid: nat, tail: nat, torn: bool,
                          zeroed: bool)

  function ScanFrom<S>(b: Bounds, visit: Visit<S>, d: seq<byte>, expected: nat, acc: Scan<S>): Scan<S>
    decreases |d|
  {
    match Look(b.payload, d, expected)
    case Clean => acc
    case Torn => acc.(torn := true, tail := |d|)
    case Zeroed => acc.(zeroed := true, tail := |d|)
    case Refused(why) => acc.(outcome := why)
    case Next(r, rest) =>
      if |acc.records| >= b.records then acc.(outcome := Exhausted)
      else
        var (s, o) := visit(acc.state, r);
        if o != Ok then acc.(outcome := o)
        else ScanFrom(b, visit, rest, r.number + 1,
                      acc.(state := s, records := acc.records + [r], valid := acc.valid + |d| - |rest|))
  }

  function Start<S>(s: S): Scan<S> {
    Scan(Ok, s, [], 0, 0, false, false)
  }

  function FirstNumber(first: nat): nat {
    if first == 0 then 1 else first
  }

  /** The whole scan of a file's bytes; an absent file scans as an empty one. */
  function ScanJournal<S>(b: Bounds, visit: Visit<S>, data: seq<byte>, first: nat, s: S): Scan<S> {
    if |data| > b.bytes then Start(s).(outcome := Oversized)
    else ScanFrom(b, visit, data, FirstNumber(first), Start(s))
  }

  /** The valid bytes never pass the end of the file. */
  lemma {:induction false} ScanWithin<S>(b: Bounds, visit: Visit<S>, d: seq<byte>, expected: nat, acc: Scan<S>)
    ensures ScanFrom(b, visit, d, expected, acc).valid <= acc.valid + |d|
    decreases |d|
  {
    hide Look;
    var turn := Look(b.payload, d, expected);
    if turn.Next? && |acc.records| < b.records && visit(acc.state, turn.record).1 == Ok {
      ScanWithin(b, visit, turn.rest, turn.record.number + 1,
                 acc.(state := visit(acc.state, turn.record).0, records := acc.records + [turn.record],
                      valid := acc.valid + |d| - |turn.rest|));
    }
  }

  lemma JournalWithin<S>(b: Bounds, visit: Visit<S>, data: seq<byte>, first: nat, s: S)
    ensures ScanJournal(b, visit, data, first, s).valid <= |data|
  {
    hide ScanFrom;
    ScanWithin(b, visit, data, FirstNumber(first), Start(s));
  }

  // ---- one turn of the loop ----

  /** One turn of the scan at a position of the journal. */
  lemma ScanTurn<S>(b: Bounds, visit: Visit<S>, journal: seq<byte>, pos: nat, expected: nat, acc: Scan<S>)
    requires pos <= |journal| && acc.valid == pos
    ensures var whole := ScanFrom(b, visit, journal[pos..], expected, acc);
            match Look(b.payload, journal[pos..], expected)
            case Clean => whole == acc
            case Torn => whole == acc.(torn := true, tail := |journal| - pos)
            case Zeroed => whole == acc.(zeroed := true, tail := |journal| - pos)
            case Refused(why) => whole == acc.(outcome := why)
            case Next(r, rest) =>
              if |acc.records| >= b.records then whole == acc.(outcome := Exhausted)
              else
                var (s, o) := visit(acc.state, r);
                var next := |journal| - |rest|;
                && pos < next <= |journal| && rest == journal[next..]
                && whole == if o != Ok then acc.(outcome := o)
                            else ScanFrom(b, visit, rest, r.number + 1,
                                          acc.(state := s, records := acc.records + [r], valid := next))
  {
    hide Look;
    if Look(b.payload, journal[pos..], expected).Next? {
      RestIsSuffix(b.payload, journal[pos..], expected);
    }
  }

  lemma RestIsSuffix(maxPayload: nat, d: seq<byte>, expected: nat)
    requires Look(maxPayload, d, expected).Next?
    ensures var rest := Look(maxPayload, d, expected).rest;
            rest == d[|d| - |rest|..]
  {
    LookNext(maxPayload, d, expected);
    hide Look, Field, CheckHeader, Checksum;
  }

  // ---- scanning what was written ----

  function EncodeAll(rs: seq<Rec>): seq<byte> {
    if rs == [] then [] else Encode(rs[0]) + EncodeAll(rs[1..])
  }

  ghost predicate Consecutive(rs: seq<Rec>, first: nat) {
    forall i :: 0 <= i < |rs| ==> Representable(rs[i]) && rs[i].number == first + i
  }

  /** A whole record at the front is visited, unless its payload is over the read bound. */
  lemma LookEncoded(maxPayload: nat, r: Rec, q: seq<byte>)
    requires Representable(r)
    ensures Look(maxPayload, Encode(r) + q, r.number) ==
            (if |r.payload| > maxPayload then Refused(Oversized) else Next(r, q))
  {
    var p := Encode(r) + q;
    hide Header, Body, Checksum, CheckHeader, Get, Put, ValidPrefix, Encode;
    EncodeSlices(r, q);
    HeaderAccepted(r, p, maxPayload);
    LookStored(r, p);
  }

  /** A whole record with another number than the expected one is refused. */
  lemma LookOutOfOrder(maxPayload: nat, r: Rec, q: seq<byte>, expected: nat)
    requires Representable(r) && r.number != expected
    ensures Look(maxPayload, Encode(r) + q, expected) ==
            Refused(if |r.payload| > maxPayload then Oversized else Corrupt)
  {
    var p := Encode(r) + q;
    hide Header, Body, Checksum, CheckHeader, Get, Put, ValidPrefix, Encode;
    EncodeSlices(r, q);
    HeaderAccepted(r, p, maxPayload);
  }

  lemma LookStored(r: Rec, p: seq<byte>)
    requires |p| >= HEADER + |r.payload| + TRAILER
    requires p[HEADER + |r.payload|..HEADER + |r.payload| + TRAILER] == Put(Checksum(Body(r)), 4)
    ensures Field(p, HEADER + |r.payload|, 4) == Checksum(Body(r))
  {
    ChecksumStored(Body(r));
  }

  /** A strict prefix of a record is a torn tail, unless it already shows a payload over the bound. */
  lemma LookTorn(maxPayload: nat, r: Rec, t: seq<byte>)
    requires Representable(r) && |t| < |Encode(r)| && t == Encode(r)[..|t|] && t != []
    ensures Look(maxPayload, t, r.number) ==
            (if |t| < 20 || |r.payload| <= maxPayload then Torn
             else if |t| < HEADER then Refused(Corrupt) else Refused(Oversized))
  {
    hide Checksum, CheckHeader, Get, Put, ValidPrefix, Encode, Header;
    PrefixStart(r, t);
    PrefixAccepted(r, t, maxPayload);
    if |t| >= HEADER {
      TornHeader(r, t);
      HeaderAccepted(r, t, maxPayload);
      PrefixHeader(r, t);
      PrefixAccepted(r, t[..HEADER], maxPayload);
    }
  }

  lemma TornHeader(r: Rec, t: seq<byte>)
    requires HEADER <= |t| <= |Encode(r)| && t == Encode(r)[..|t|]
    ensures t[..HEADER] == Header(r)
  {
    hide Header, Checksum, Put;
    assert t[..HEADER] == Encode(r)[..HEADER];
  }

  lemma PrefixHeader(r: Rec, t: seq<byte>)
    requires HEADER <= |t| <= |Encode(r)| && t == Encode(r)[..|t|]
    ensures t[..HEADER] == Encode(r)[..HEADER]
  {
    hide Encode;
  }

  /** Folding the visitor over records, stopping at the first refusal. */
  function Fold<S>(visit: Visit<S>, s: S, rs: seq<Rec>): (S, Outcome) {
    if rs == [] then (s, Ok)
    else
      var (t, o) := visit(s, rs[0]);
      if o != Ok then (s, o) else Fold(visit, t, rs[1..])
  }

  /** A cut of the next record: some of its bytes, but not all. */
  ghost predicate Cut(next: Rec, t: seq<byte>) {
    |t| < |Encode(next)| && t == Encode(next)[..|t|]
  }

  ghost predicate PayloadsWithin(maxPayload: nat, rs: seq<Rec>) {
    forall i :: 0 <= i < |rs| ==> |rs[i].payload| <= maxPayload
  }

  /** What a scan of written records and a cut reports, and exactly when it accepts them. */
  ghost predicate Recovers<S>(b: Bounds, visit: Visit<S>, rs: seq<Rec>, next: Rec, t: seq<byte>, acc: Scan<S>,
                              out: Scan<S>) {
    var (s, o) := Fold(visit, acc.state, rs);
    && (out.outcome == Ok ==>
          out == Scan(Ok, s, acc.records + rs, acc.valid + |EncodeAll(rs)|, |t|, t != [], false))
    && (out.outcome == Ok <==>
          && o == Ok && (rs == [] || |acc.records| + |rs| <= b.records) && PayloadsWithin(b.payload, rs)
          && (|t| < 20 || |next.payload| <= b.payload))
  }

  ghost predicate Fresh<S>(acc: Scan<S>) {
    acc.outcome == Ok && !acc.torn && !acc.zeroed && acc.tail == 0
  }

  lemma TailRecovers<S>(b: Bounds, visit: Visit<S>, next: Rec, t: seq<byte>, acc: Scan<S>)
    requires Representable(next) && Cut(next, t) && Fresh(acc)
    ensures Recovers(b, visit, [], next, t, acc, ScanFrom(b, visit, EncodeAll([]) + t, next.number, acc))
  {
    hide Look, Encode, Representable;
    assert EncodeAll([]) + t == t;
    assert acc.records + [] == acc.records;
    if t != [] {
      LookTorn(b.payload, next, t);
    } else {
      LookNothing(b.payload, next.number);
    }
  }

  lemma EncodeAllStep(rs: seq<Rec>, t: seq<byte>)
    requires rs != []
    ensures EncodeAll(rs) + t == Encode(rs[0]) + (EncodeAll(rs[1..]) + t)
  {
    hide Encode;
  }

  lemma HeadRecovers<S>(b: Bounds, visit: Visit<S>, rs: seq<Rec>, next: Rec, t: seq<byte>, acc: Scan<S>, acc': Scan<S>,
                        out: Scan<S>)
    requires rs != [] && visit(acc.state, rs[0]).1 == Ok && |rs[0].payload| <= b.payload && |acc.records| < b.records
    requires acc'.state == visit(acc.state, rs[0]).0 && acc'.records == acc.records + [rs[0]]
    requires acc'.valid == acc.valid + |Encode(rs[0])|
    requires Recovers(b, visit, rs[1..], next, t, acc', out)
    ensures Recovers(b, visit, rs, next, t, acc, out)
  {
    hide Encode, Representable;
    assert acc'.records + rs[1..] == acc.records + rs;
  }

  /** The scan past one whole record: refused, or continued behind it. */
  lemma ScanPast<S>(b: Bounds, visit: Visit<S>, r: Rec, rest: seq<byte>, acc: Scan<S>)
    requires Representable(r) && acc.outcome == Ok
    ensures var past := ScanFrom(b, visit, Encode(r) + rest, r.number, acc);
            if visit(acc.state, r).1 == Ok && |r.payload| <= b.payload && |acc.records| < b.records then
              past == ScanFrom(b, visit, rest, r.number + 1, Past(visit, acc, r))
            else past.outcome != Ok
  {
    hide Look, Encode, Representable;
    LookEncoded(b.payload, r, rest);
  }

  function Past<S>(visit: Visit<S>, acc: Scan<S>, r: Rec): Scan<S> {
    acc.(state := visit(acc.state, r).0, records := acc.records + [r], valid := acc.valid + |Encode(r)|)
  }

  lemma NoneRecovers<S>(b: Bounds, visit: Visit<S>, rs: seq<Rec>, next: Rec, t: seq<byte>, acc: Scan<S>, out: Scan<S>)
    requires rs != [] && out.outcome != Ok
    requires visit(acc.state, rs[0]).1 != Ok || |rs[0].payload| > b.payload || |acc.records| >= b.records
    ensures Recovers(b, visit, rs, next, t, acc, out)
  {}

  /** Consecutive records and a cut of the next one: the scan visits exactly the records, or refuses. */
  lemma {:induction false} ScanWritten<S>(b: Bounds, visit: Visit<S>, rs: seq<Rec>, first: nat, next: Rec, t: seq<byte>,
                                          acc: Scan<S>)
    requires Consecutive(rs, first) && Representable(next) && next.number == first + |rs| && Cut(next, t) && Fresh(acc)
    ensures Recovers(b, visit, rs, next, t, acc, ScanFrom(b, visit, EncodeAll(rs) + t, first, acc))
    decreases |rs|
  {
    hide ScanFrom, Recovers, Encode, Representable, EncodeAll, Cut;
    if rs == [] {
      TailRecovers(b, visit, next, t, acc);
    } else {
      EncodeAllStep(rs, t);
      ScanPast(b, visit, rs[0], EncodeAll(rs[1..]) + t, acc);
      var out := ScanFrom(b, visit, EncodeAll(rs) + t, first, acc);
      if visit(acc.state, rs[0]).1 == Ok && |rs[0].payload| <= b.payload && |acc.records| < b.records {
        ScanWritten(b, visit, rs[1..], first + 1, next, t, Past(visit, acc, rs[0]));
        HeadRecovers(b, visit, rs, next, t, acc, Past(visit, acc, rs[0]), out);
      } else {
        NoneRecovers(b, visit, rs, next, t, acc, out);
      }
    }
  }

  lemma LookNothing(maxPayload: nat, expected: nat)
    ensures Look(maxPayload, [], expected) == Clean
  {}

  /** Within the bounds the scan inverts writing and recovers the torn tail. */
  lemma ScanInvertsWriting<S>(b: Bounds, visit: Visit<S>, rs: seq<Rec>, first: nat, next: Rec, t: seq<byte>, s: S)
    requires first > 0 && Consecutive(rs, first) && Representable(next) && next.number == first + |rs| && Cut(next, t)
    requires |EncodeAll(rs)| + |t| <= b.bytes && |rs| <= b.records
    requires PayloadsWithin(b.payload, rs) && |next.payload| <= b.payload
    requires Fold(visit, s, rs).1 == Ok
    ensures ScanJournal(b, visit, EncodeAll(rs) + t, first, s) ==
            Scan(Ok, Fold(visit, s, rs).0, rs, |EncodeAll(rs)|, |t|, t != [], false)
    ensures ScanJournal(b, visit, (EncodeAll(rs) + t)[..|EncodeAll(rs)|], first, s) ==
            Scan(Ok, Fold(visit, s, rs).0, rs, |EncodeAll(rs)|, 0, false, false)
  {
    hide Look, ScanFrom, Encode, EncodeAll;
    ScanWritten(b, visit, rs, first, next, t, Start(s));
    ScanWritten(b, visit, rs, first, next, [], Start(s));
    assert [] + rs == rs;
    assert (EncodeAll(rs) + t)[..|EncodeAll(rs)|] == EncodeAll(rs) + [];
  }

  // ---- what an accepted scan has read ----

  lemma LookReads(maxPayload: nat, d: seq<byte>, expected: nat)
    requires Look(maxPayload, d, expected).Next?
    ensures var n := Look(maxPayload, d, expected);
            && Representable(n.record) && n.record.number == expected && |n.record.payload| <= maxPayload
            && d == Encode(n.record) + n.rest
  {
    hide Look, Field, Get, Put, Checksum, CheckHeader, Encode, Header, Body, Representable;
    LookNext(maxPayload, d, expected);
    StoredEncodes(d, maxPayload);
    var e := Encode(Stored(d));
    assert d == d[..|e|] + d[|e|..];
  }

  lemma LookNext(maxPayload: nat, d: seq<byte>, expected: nat)
    requires Look(maxPayload, d, expected).Next?
    ensures |d| >= HEADER && CheckHeader(d[..HEADER], maxPayload) == Ok && Field(d, 8, 8) == expected
    ensures |d| >= HEADER + Field(d, 16, 4) + TRAILER
    ensures Checksum(d[..HEADER + Field(d, 16, 4)]) == Field(d, HEADER + Field(d, 16, 4), 4)
    ensures Field(d, 16, 4) <= maxPayload
    ensures Look(maxPayload, d, expected) == Next(Stored(d), d[HEADER + Field(d, 16, 4) + TRAILER..])
  {
    hide Checksum, Get, ValidPrefix;
    assert d[..HEADER][16..20] == d[16..20];
  }

  /** The unread bytes d hold records rs, written one after another, and an unread tail. */
  ghost predicate Holds(d: seq<byte>, rs: seq<Rec>, first: nat, tail: nat) {
    Consecutive(rs, first) && tail <= |d| && d == EncodeAll(rs) + d[|d| - tail..]
  }

  /** The records rs, held by d behind those already scanned, are what the scan reports. */
  ghost predicate Reads<S>(b: Bounds, visit: Visit<S>, d: seq<byte>, expected: nat, acc: Scan<S>, rs: seq<Rec>,
                           out: Scan<S>) {
    && Holds(d, rs, expected, out.tail) && PayloadsWithin(b.payload, rs)
    && out.records == acc.records + rs && out.valid == acc.valid + |d| - out.tail
    && Fold(visit, acc.state, rs) == (out.state, Ok)
  }

  lemma ReadsNone<S>(b: Bounds, visit: Visit<S>, d: seq<byte>, expected: nat, acc: Scan<S>, out: Scan<S>)
    requires out.records == acc.records && out.state == acc.state && out.valid == acc.valid && out.tail == |d|
    ensures Reads(b, visit, d, expected, acc, [], out)
  {
    NoRecords(d, expected, acc.records);
    hide Holds;
  }

  lemma ReadsMore<S>(b: Bounds, visit: Visit<S>, r: Rec, rest: seq<byte>, acc: Scan<S>, rs: seq<Rec>, out: Scan<S>)
    requires Representable(r) && |r.payload| <= b.payload && visit(acc.state, r).1 == Ok
    requires Reads(b, visit, rest, r.number + 1, Past(visit, acc, r), rs, out)
    ensures Reads(b, visit, Encode(r) + rest, r.number, acc, [r] + rs, out)
  {
    hide Encode, Representable, Holds;
    MoreRecords(Encode(r) + rest, r, rest, rs, acc.records, r.number, out.tail);
    assert ([r] + rs)[1..] == rs;
  }

  lemma ScanStops<S>(b: Bounds, visit: Visit<S>, d: seq<byte>, expected: nat, acc: Scan<S>)
    requires acc.outcome == Ok && acc.tail == 0 && !Look(b.payload, d, expected).Next?
    requires ScanFrom(b, visit, d, expected, acc).outcome == Ok
    ensures Reads(b, visit, d, expected, acc, [], ScanFrom(b, visit, d, expected, acc))
  {
    hide Look;
    if Look(b.payload, d, expected).Clean? {
      LookCleanEmpty(b.payload, d, expected);
    }
    ReadsNone(b, visit, d, expected, acc, ScanFrom(b, visit, d, expected, acc));
  }

  /** An accepted scan has read the encodings of consecutive records, and nothing else before the tail. */
  lemma {:induction false} ScanReads<S>(b: Bounds, visit: Visit<S>, d: seq<byte>, expected: nat,
                                        acc: Scan<S>) returns (rs: seq<Rec>)
    requires acc.outcome == Ok && acc.tail == 0
    requires ScanFrom(b, visit, d, expected, acc).outcome == Ok
    ensures Reads(b, visit, d, expected, acc, rs, ScanFrom(b, visit, d, expected, acc))
    decreases |d|
  {
    hide Look, Reads, ScanFrom, Representable, Encode;
    var turn := Look(b.payload, d, expected);
    if turn.Next? {
      LookReads(b.payload, d, expected);
      ScanPast(b, visit, turn.record, turn.rest, acc);
      var more := ScanReads(b, visit, turn.rest, expected + 1, Past(visit, acc, turn.record));
      rs := [turn.record] + more;
      ReadsMore(b, visit, turn.record, turn.rest, acc, more, ScanFrom(b, visit, d, expected, acc));
    } else {
      rs := [];
      ScanStops(b, visit, d, expected, acc);
    }
  }

  lemma NoRecords(d: seq<byte>, expected: nat, before: seq<Rec>)
    ensures Holds(d, [], expected, |d|) && before + [] == before
  {}

  lemma LookCleanEmpty(maxPayload: nat, d: seq<byte>, expected: nat)
    requires Look(maxPayload, d, expected).Clean?
    ensures d == []
  {
    hide AllZero, ValidPrefix, Field, CheckHeader, Checksum;
  }

  lemma MoreRecords(d: seq<byte>, r: Rec, rest: seq<byte>, rs: seq<Rec>, before: seq<Rec>, expected: nat, tail: nat)
    requires d == Encode(r) + rest && Representable(r) && r.number == expected && Holds(rest, rs, expected + 1, tail)
    ensures (before + [r]) + rs == before + ([r] + rs) && Holds(d, [r] + rs, expected, tail)
  {
    hide Encode, Representable;
    assert ([r] + rs)[1..] == rs;
    MoreBytes(d, Encode(r), rest, EncodeAll(rs), tail);
  }

  lemma MoreBytes(d: seq<byte>, e: seq<byte>, rest: seq<byte>, all: seq<byte>, tail: nat)
    requires d == e + rest && tail <= |rest| && rest == all + rest[|rest| - tail..]
    ensures d == (e + all) + d[|d| - tail..]
  {
    assert d[|d| - tail..] == rest[|rest| - tail..];
  }
}
