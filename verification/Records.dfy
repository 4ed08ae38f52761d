/** Journal record framing: encoding, header checks and torn prefixes. */
module Records {
  import opened Crc
  import opened Bytes

  const JOURNAL_MAGIC: nat := 0x4A474842
  const FORMAT_VERSION: nat := 1
  const HEADER: nat := 24
  const TRAILER: nat := 4

  datatype Rec = Rec(kind: nat, number: nat, payload: seq<byte>)

  predicate ValidKind(k: nat) {
    1 <= k <= 12
  }

  /** What the fixed-width header fields can hold. */
  predicate Representable(r: Rec) {
    ValidKind(r.kind) && r.number < U64 && |r.payload| < U32
  }

  function Head(r: Rec): (h: seq<byte>)
    ensures |h| == 20
  {
    Put(JOURNAL_MAGIC, 4) + Put(FORMAT_VERSION, 2) + Put(r.kind, 2) + Put(r.number, 8) + Put(|r.payload|, 4)
  }

  function Header(r: Rec): (h: seq<byte>)
    ensures |h| == HEADER
  {
    Head(r) + Put(Checksum(Head(r)), 4)
  }

  function Body(r: Rec): (b: seq<byte>)
    ensures |b| == HEADER + |r.payload|
  {
    Header(r) + r.payload
  }

  function Encode(r: Rec): (s: seq<byte>)
    ensures |s| == HEADER + |r.payload| + TRAILER
  {
    Body(r) + Put(Checksum(Body(r)), 4)
  }

  /** The checks on a header, in order. */
  function CheckHeader(h: seq<byte>, maxPayload: nat): Outcome {
    if |h| < HEADER then Malformed
    else if Field(h, 0, 4) != JOURNAL_MAGIC then Corrupt
    else if Field(h, 4, 2) != FORMAT_VERSION then Unsupported
    else if !ValidKind(Field(h, 6, 2)) then Invalid
    else if Field(h, 16, 4) > maxPayload then Oversized
    else if Checksum(h[..20]) != Field(h, 20, 4) then Corrupt
    else Ok
  }

  /** The byte a torn header must show at position i, where it is known: the magic and the version. */
  function KnownByte(i: nat): byte
    requires i < 6
  {
    (Put(JOURNAL_MAGIC, 4) + Put(FORMAT_VERSION, 2))[i]
  }

  predicate ValidPrefix(b: seq<byte>, maxPayload: nat) {
    var n := if |b| < HEADER then |b| else HEADER;
    && (forall i :: 0 <= i < n && i < 6 ==> b[i] == KnownByte(i))
    && (n > 19 ==> Field(b, 16, 4) <= maxPayload)
  }

  /** Byte by byte, as the source checks it: every position up to the header size. */
  method IsValidPrefix(b: seq<byte>, maxPayload: nat) returns (ok: bool)
    ensures ok <==> ValidPrefix(b, maxPayload)
  {
    var n := if |b| < HEADER then |b| else HEADER;
    for i := 0 to n
      invariant forall j :: 0 <= j < i && j < 6 ==> b[j] == KnownByte(j)
      invariant i > 19 ==> Field(b, 16, 4) <= maxPayload
    {
      if i < 6 && b[i] != KnownByte(i) {
        return false;
      }
      if i == 19 && Field(b, 16, 4) > maxPayload {
        return false;
      }
    }
    return true;
  }

  predicate AllZero(b: seq<byte>) {
    forall i :: 0 <= i < |b| ==> b[i] == 0
  }

  // ---- an encoded record, read back ----

  lemma HeadFields(r: Rec)
    ensures Head(r)[0..4] == Put(JOURNAL_MAGIC, 4) && Head(r)[4..6] == Put(FORMAT_VERSION, 2)
    ensures Head(r)[6..8] == Put(r.kind, 2) && Head(r)[8..16] == Put(r.number, 8)
    ensures Head(r)[16..20] == Put(|r.payload|, 4)
  {}

  lemma HeaderSlices(r: Rec, h: seq<byte>)
    requires |h| >= HEADER && h[..HEADER] == Header(r)
    ensures h[..20] == Head(r) && h[20..24] == Put(Checksum(Head(r)), 4)
    ensures h[0..4] == Head(r)[0..4] && h[4..6] == Head(r)[4..6] && h[6..8] == Head(r)[6..8]
    ensures h[8..16] == Head(r)[8..16] && h[16..20] == Head(r)[16..20]
  {
    hide Put, Head, Checksum;
    assert h[..20] == h[..HEADER][..20];
    assert h[20..24] == h[..HEADER][20..24];
    assert h[0..4] == h[..20][0..4] && h[4..6] == h[..20][4..6] && h[6..8] == h[..20][6..8];
    assert h[8..16] == h[..20][8..16] && h[16..20] == h[..20][16..20];
  }

  /** The header of a representable record passes every check but, perhaps, the payload bound. */
  lemma HeaderAccepted(r: Rec, h: seq<byte>, maxPayload: nat)
    requires Representable(r) && |h| >= HEADER && h[..HEADER] == Header(r)
    ensures Field(h, 0, 4) == JOURNAL_MAGIC && Field(h, 6, 2) == r.kind
    ensures Field(h, 8, 8) == r.number && Field(h, 16, 4) == |r.payload|
    ensures CheckHeader(h[..HEADER], maxPayload) == (if |r.payload| > maxPayload then Oversized else Ok)
  {
    HeaderFields(r, h);
    HeaderFields(r, h[..HEADER]);
    hide Field, Header, Head;
    HeaderSlices(r, h[..HEADER]);
  }

  lemma HeaderFields(r: Rec, h: seq<byte>)
    requires Representable(r) && |h| >= HEADER && h[..HEADER] == Header(r)
    ensures Field(h, 0, 4) == JOURNAL_MAGIC && Field(h, 4, 2) == FORMAT_VERSION && Field(h, 6, 2) == r.kind
    ensures Field(h, 8, 8) == r.number && Field(h, 16, 4) == |r.payload|
    ensures Field(h, 20, 4) == Checksum(Head(r))
  {
    hide Put, Get, Head, Checksum, Field;
    Limits();
    HeaderSlices(r, h);
    HeadFields(r);
    FieldOf(h, 0, 4, JOURNAL_MAGIC);
    FieldOf(h, 4, 2, FORMAT_VERSION);
    FieldOf(h, 6, 2, r.kind);
    FieldOf(h, 8, 8, r.number);
    FieldOf(h, 16, 4, |r.payload|);
    FieldOf(h, 20, 4, Checksum(Head(r)));
  }

  lemma EncodeSlices(r: Rec, q: seq<byte>)
    ensures var p := Encode(r) + q;
            var body := HEADER + |r.payload|;
            && p[..HEADER] == Header(r) && p[..body] == Body(r) && p[HEADER..body] == r.payload
            && p[body..body + TRAILER] == Put(Checksum(Body(r)), 4) && p[body + TRAILER..] == q
  {
    hide Header, Checksum, Put;
  }

  lemma FirstByte()
    ensures Put(JOURNAL_MAGIC, 4)[0] == 0x42
  {
    assert JOURNAL_MAGIC % 256 == 0x42;
  }

  /** Every prefix of an encoded record starts as a header must, and is not taken for a zeroed tail. */
  lemma PrefixStart(r: Rec, t: seq<byte>)
    requires |t| <= |Encode(r)| && t == Encode(r)[..|t|] && t != []
    ensures !AllZero(t)
    ensures forall i :: 0 <= i < |t| && i < 6 ==> t[i] == KnownByte(i)
  {
    FirstByte();
    hide Checksum, Put;
    assert t[0] == Put(JOURNAL_MAGIC, 4)[0];
    forall i | 0 <= i < |t| && i < 6
      ensures t[i] == KnownByte(i)
    {
      assert t[i] == Encode(r)[i];
    }
  }

  /** The length field of a torn record, once it is all there. */
  lemma PrefixLength(r: Rec, t: seq<byte>)
    requires Representable(r) && 20 <= |t| <= |Encode(r)| && t == Encode(r)[..|t|]
    ensures Field(t, 16, 4) == |r.payload|
  {
    Limits();
    HeadFields(r);
    hide Checksum, Put, Get;
    assert t[16..20] == Encode(r)[16..20] == Head(r)[16..20];
    FieldOf(t, 16, 4, |r.payload|);
  }

  /** A torn record is recognised exactly when what is known of its length respects the bound. */
  lemma PrefixAccepted(r: Rec, t: seq<byte>, maxPayload: nat)
    requires Representable(r) && |t| <= |Encode(r)| && t == Encode(r)[..|t|] && t != []
    ensures ValidPrefix(t, maxPayload) <==> |t| < 20 || |r.payload| <= maxPayload
  {
    PrefixStart(r, t);
    if |t| >= 20 {
      PrefixLength(r, t);
    }
    hide Encode, KnownByte;
  }

  // ---- bytes that pass the checks are an encoding ----

  lemma FieldBytes(p: seq<byte>, at: nat, k: nat)
    requires at + k <= |p|
    ensures p[at..at + k] == Put(Field(p, at, k), k) && Field(p, at, k) < Limit(k)
  {
    PutGet(p[at..at + k]);
  }

  /** The record a complete, checked byte string holds. */
  function Stored(p: seq<byte>): Rec
    requires |p| >= HEADER && |p| >= HEADER + Field(p, 16, 4)
  {
    Rec(Field(p, 6, 2), Field(p, 8, 8), p[HEADER..HEADER + Field(p, 16, 4)])
  }

  lemma HeaderChecked(h: seq<byte>, maxPayload: nat)
    requires CheckHeader(h, maxPayload) == Ok
    ensures |h| >= HEADER && Field(h, 0, 4) == JOURNAL_MAGIC && Field(h, 4, 2) == FORMAT_VERSION
    ensures ValidKind(Field(h, 6, 2)) && Field(h, 20, 4) == Checksum(h[..20])
  {
    hide Field, Checksum;
  }

  lemma FieldInside(p: seq<byte>, at: nat, k: nat)
    requires |p| >= HEADER && at + k <= HEADER
    ensures Field(p[..HEADER], at, k) == Field(p, at, k)
  {
    assert p[..HEADER][at..at + k] == p[at..at + k];
  }

  lemma StoredHeader(p: seq<byte>, maxPayload: nat)
    requires |p| >= HEADER && CheckHeader(p[..HEADER], maxPayload) == Ok && |p| >= HEADER + Field(p, 16, 4)
    ensures p[..HEADER] == Header(Stored(p)) && Representable(Stored(p))
  {
    hide Field, CheckHeader, Checksum, Put;
    var h := p[..HEADER];
    HeaderChecked(h, maxPayload);
    FieldInside(p, 6, 2);
    FieldInside(p, 8, 8);
    FieldInside(p, 16, 4);
    Limits();
    FieldBytes(h, 0, 4); FieldBytes(h, 4, 2); FieldBytes(h, 6, 2);
    FieldBytes(h, 8, 8); FieldBytes(h, 16, 4); FieldBytes(h, 20, 4);
    HeaderParts(h);
  }

  lemma HeaderParts(h: seq<byte>)
    requires |h| == HEADER
    ensures h[..20] == h[0..4] + h[4..6] + h[6..8] + h[8..16] + h[16..20] && h == h[..20] + h[20..24]
  {}

  lemma StoredEncodes(p: seq<byte>, maxPayload: nat)
    requires |p| >= HEADER && CheckHeader(p[..HEADER], maxPayload) == Ok
    requires |p| >= HEADER + Field(p, 16, 4) + TRAILER
    requires Checksum(p[..HEADER + Field(p, 16, 4)]) == Field(p, HEADER + Field(p, 16, 4), 4)
    ensures Representable(Stored(p)) && p[..|Encode(Stored(p))|] == Encode(Stored(p))
  {
    hide Put, Checksum, CheckHeader, Header, Field, Representable;
    StoredHeader(p, maxPayload);
    var body := HEADER + Field(p, 16, 4);
    FieldBytes(p, body, 4);
    assert p[..body] == p[..HEADER] + p[HEADER..body];
    assert p[..body + 4] == p[..body] + p[body..body + 4];
  }
}
