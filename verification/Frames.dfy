/** The framed wire protocol: encoding, and a decoder over an in-place buffer. */
module Frames {
  import opened Crc
  import opened Bytes

  const FRAME_MAGIC: nat := 0x31474842
  const PROTOCOL_VERSION: nat := 1
  const HEADER: nat := 20

  datatype Frame = Frame(kind: nat, flags: nat, payload: seq<byte>)

  predicate ValidKind(k: nat) {
    1 <= k <= 23
  }

  /** The integrity field chains the header checksum into the payload checksum. */
  function Integrity(header16: seq<byte>, payload: seq<byte>): (n: nat)
    ensures n < U32
  {
    Crc32c(payload, Crc32c(header16, 0)) as nat
  }

  /** The first 16 header bytes. */
  function Head(f: Frame): (h: seq<byte>)
    ensures |h| == 16
  {
    Put(FRAME_MAGIC, 4) + Put(PROTOCOL_VERSION, 2) + Put(f.kind, 2) + Put(f.flags, 4) + Put(|f.payload|, 4)
  }

  function Encode(f: Frame): (s: seq<byte>)
    ensures |s| == HEADER + |f.payload|
  {
    Head(f) + Put(Integrity(Head(f), f.payload), 4) + f.payload
  }

  /** The integrity field is the checksum of the header and the payload together. */
  lemma IntegrityIsChecksum(header16: seq<byte>, payload: seq<byte>)
    ensures Integrity(header16, payload) == Checksum(header16 + payload)
  {
    CrcChains(header16, payload, 0);
  }

  datatype Parsed = More | Got(frame: Frame, rest: seq<byte>) | Bad(why: Outcome)

  /** One decoding step on the pending bytes, in the decoder's order of checks. */
  function Parse(max: nat, p: seq<byte>): (r: Parsed)
    ensures r.Got? ==> |r.rest| + HEADER <= |p|
    ensures r.Bad? ==> r.why != Ok
  {
    if |p| < HEADER then More
    else if Field(p, 0, 4) != FRAME_MAGIC then Bad(Corrupt)
    else if Field(p, 4, 2) != PROTOCOL_VERSION then Bad(Unsupported)
    else if !ValidKind(Field(p, 6, 2)) then Bad(Invalid)
    else if Field(p, 8, 4) != 0 then Bad(Invalid)
    else if Field(p, 12, 4) > max then Bad(Oversized)
    else
      var total := HEADER + Field(p, 12, 4);
      if |p| < total then More
      else if Integrity(p[..16], p[HEADER..total]) != Field(p, 16, 4) then Bad(Corrupt)
      else Got(Frame(Field(p, 6, 2), 0, p[HEADER..total]), p[total..])
  }

  /** A frame a peer may send: known kind, no flags, within the bound. */
  predicate Sendable(max: nat, f: Frame) {
    ValidKind(f.kind) && f.flags == 0 && |f.payload| <= max
  }

  // ---- one frame ----

  lemma HeadFields(f: Frame)
    ensures Head(f)[0..4] == Put(FRAME_MAGIC, 4) && Head(f)[4..6] == Put(PROTOCOL_VERSION, 2)
    ensures Head(f)[6..8] == Put(f.kind, 2) && Head(f)[8..12] == Put(f.flags, 4)
    ensures Head(f)[12..16] == Put(|f.payload|, 4)
  {}

  lemma EncodeSlices(f: Frame, q: seq<byte>)
    ensures var p := Encode(f) + q;
            && p[..16] == Head(f) && p[16..20] == Put(Integrity(Head(f), f.payload), 4)
            && p[HEADER..HEADER + |f.payload|] == f.payload && p[HEADER + |f.payload|..] == q
  {
    hide Integrity, Head, Put;
  }

  lemma SliceOfSlice(p: seq<byte>, a: nat, b: nat)
    requires a <= b <= 16 <= |p|
    ensures p[..16][a..b] == p[a..b]
  {}

  /** Decoding an encoded frame gives it back and leaves what follows. */
  lemma ParseEncode(max: nat, f: Frame, q: seq<byte>)
    requires Sendable(max, f) && max < U32
    ensures Parse(max, Encode(f) + q) == Got(f, q)
  {
    hide Put, Get, Integrity, Head;
    var p := Encode(f) + q;
    Limits();
    EncodeSlices(f, q);
    HeadFields(f);
    SliceOfSlice(p, 0, 4); SliceOfSlice(p, 4, 6); SliceOfSlice(p, 6, 8);
    SliceOfSlice(p, 8, 12); SliceOfSlice(p, 12, 16);
    FieldOf(p, 0, 4, FRAME_MAGIC);
    FieldOf(p, 4, 2, PROTOCOL_VERSION);
    FieldOf(p, 6, 2, f.kind);
    FieldOf(p, 8, 4, 0);
    FieldOf(p, 12, 4, |f.payload|);
    FieldOf(p, 16, 4, Integrity(Head(f), f.payload));
  }

  lemma FieldBytes(p: seq<byte>, at: nat, k: nat)
    requires at + k <= |p|
    ensures p[at..at + k] == Put(Field(p, at, k), k)
  {
    PutGet(p[at..at + k]);
  }

  /** A decoded frame is sendable, and its encoding is exactly the bytes it was decoded from. */
  lemma EncodeParse(max: nat, p: seq<byte>)
    requires Parse(max, p).Got?
    ensures var g := Parse(max, p);
            Sendable(max, g.frame) && Encode(g.frame) + g.rest == p
  {
    hide Put, Get, Integrity;
    var f := Parse(max, p).frame;
    var total := HEADER + |f.payload|;
    FieldBytes(p, 0, 4);
    FieldBytes(p, 4, 2);
    FieldBytes(p, 6, 2);
    FieldBytes(p, 8, 4);
    FieldBytes(p, 12, 4);
    FieldBytes(p, 16, 4);
    assert Head(f) == p[0..4] + p[4..6] + p[6..8] + p[8..12] + p[12..16];
    assert Head(f) == p[..16];
    assert Encode(f) == p[..16] + p[16..20] + p[HEADER..total];
  }

  // ---- the whole stream ----

  /** Everything the decoder yields from a byte string: frames, unread bytes, and how it ended. */
  datatype Drained = Drained(frames: seq<Frame>, rest: seq<byte>, failure: Outcome)

  function Drain(max: nat, p: seq<byte>): Drained
    decreases |p|
  {
    match Parse(max, p)
    case More => Drained([], p, Ok)
    case Bad(why) => Drained([], p, why)
    case Got(f, rest) =>
      var d := Drain(max, rest);
      d.(frames := [f] + d.frames)
  }

  /** Bytes that arrive later do not change a decision already made. */
  lemma ParseStable(max: nat, p: seq<byte>, q: seq<byte>)
    ensures Parse(max, p).Bad? ==> Parse(max, p + q) == Parse(max, p)
    ensures Parse(max, p).Got? ==> Parse(max, p + q) == Got(Parse(max, p).frame, Parse(max, p).rest + q)
  {
    hide Get, Integrity;
    if |p| >= HEADER {
      assert (p + q)[0..4] == p[0..4] && (p + q)[4..6] == p[4..6] && (p + q)[6..8] == p[6..8];
      assert (p + q)[8..12] == p[8..12] && (p + q)[12..16] == p[12..16] && (p + q)[16..20] == p[16..20];
      assert (p + q)[..16] == p[..16];
      var total := HEADER + Field(p, 12, 4);
      if total <= |p| {
        assert (p + q)[HEADER..total] == p[HEADER..total];
        assert (p + q)[total..] == p[total..] + q;
      }
    }
  }

  /** Draining in two goes yields what draining at once yields. */
  lemma {:induction false} DrainAppend(max: nat, p: seq<byte>, q: seq<byte>)
    ensures var d := Drain(max, p);
            var e := Drain(max, d.rest + q);
            && (d.failure == Ok ==> Drain(max, p + q) == e.(frames := d.frames + e.frames))
            && (d.failure != Ok ==>
                  Drain(max, p + q).frames == d.frames && Drain(max, p + q).failure == d.failure)
    decreases |p|
  {
    hide Parse;
    ParseStable(max, p, q);
    match Parse(max, p)
    case More =>
    case Bad(why) =>
    case Got(f, rest) =>
      DrainAppend(max, rest, q);
      var d, inner := Drain(max, p), Drain(max, rest);
      assert d.rest == inner.rest && d.failure == inner.failure && d.frames == [f] + inner.frames;
      var e := Drain(max, d.rest + q);
      assert ([f] + inner.frames) + e.frames == [f] + (inner.frames + e.frames);
  }

  function EncodeAll(fs: seq<Frame>): seq<byte> {
    if fs == [] then [] else Encode(fs[0]) + EncodeAll(fs[1..])
  }

  lemma DrainNothing(max: nat)
    ensures Drain(max, []) == Drained([], [], Ok)
  {}

  /** Any sequence of sendable frames is decoded completely, with nothing left over. */
  lemma {:induction false} DrainEncoded(max: nat, fs: seq<Frame>)
    requires max < U32 && forall i :: 0 <= i < |fs| ==> Sendable(max, fs[i])
    ensures Drain(max, EncodeAll(fs)) == Drained(fs, [], Ok)
  {
    hide Encode, Parse;
    DrainNothing(max);
    if fs != [] {
      DrainEncoded(max, fs[1..]);
      ParseEncode(max, fs[0], EncodeAll(fs[1..]));
      assert fs == [fs[0]] + fs[1..];
    }
  }

  /** What was decoded, encoded again, is exactly what was read. */
  lemma {:induction false} EncodeDrained(max: nat, p: seq<byte>)
    ensures var d := Drain(max, p);
            EncodeAll(d.frames) + d.rest == p && forall i :: 0 <= i < |d.frames| ==> Sendable(max, d.frames[i])
    decreases |p|
  {
    hide Parse, Encode, Sendable;
    match Parse(max, p)
    case More =>
    case Bad(why) =>
    case Got(f, rest) =>
      EncodeParse(max, p);
      EncodeDrained(max, rest);
      var d := Drain(max, rest);
      assert ([f] + d.frames)[1..] == d.frames;
      assert Encode(f) + (EncodeAll(d.frames) + d.rest) == (Encode(f) + EncodeAll(d.frames)) + d.rest;
  }

  /** A drained buffer holds less than one largest frame. */
  lemma {:induction false} DrainedIsShort(max: nat, p: seq<byte>)
    requires Drain(max, p).failure == Ok
    ensures |Drain(max, p).rest| < max + HEADER || |Drain(max, p).rest| < HEADER
    decreases |p|
  {
    match Parse(max, p)
    case More =>
    case Bad(why) =>
    case Got(f, rest) => DrainedIsShort(max, rest);
  }

  // ---- a connection fed in chunks ----

  /** Frames delivered so far, bytes pending, and the latched failure. */
  datatype Conn = Conn(frames: seq<Frame>, pending: seq<byte>, failure: Outcome)

  const NEW_CONN: Conn := Conn([], [], Ok)

  /** Feed one chunk, then take every complete frame. */
  function Receive(max: nat, c: Conn, chunk: seq<byte>): Conn {
    if c.failure != Ok then c
    else if |c.pending| + |chunk| > max + HEADER then c.(failure := Oversized)
    else
      var d := Drain(max, c.pending + chunk);
      Conn(c.frames + d.frames, d.rest, d.failure)
  }

  function ReceiveAll(max: nat, c: Conn, chunks: seq<seq<byte>>): Conn
    decreases |chunks|
  {
    if chunks == [] then c else ReceiveAll(max, Receive(max, c, chunks[0]), chunks[1..])
  }

  function Joined(chunks: seq<seq<byte>>): seq<byte> {
    if chunks == [] then [] else chunks[0] + Joined(chunks[1..])
  }

  /** No chunk overfills the buffer before the connection fails for another reason. */
  predicate NeverOverfull(max: nat, c: Conn, chunks: seq<seq<byte>>)
    decreases |chunks|
  {
    chunks == [] || c.failure != Ok ||
    (|c.pending| + |chunks[0]| <= max + HEADER && NeverOverfull(max, Receive(max, c, chunks[0]), chunks[1..]))
  }

  lemma {:induction false} FailedStays(max: nat, c: Conn, chunks: seq<seq<byte>>)
    requires c.failure != Ok
    ensures ReceiveAll(max, c, chunks) == c
  {
    if chunks != [] {
      FailedStays(max, c, chunks[1..]);
    }
  }

  /** Without overfilling, a connection behaves as if all its bytes had come at once. */
  lemma {:induction false} ChunkingIrrelevant(max: nat, c: Conn, chunks: seq<seq<byte>>)
    requires c.failure == Ok && Drain(max, c.pending) == Drained([], c.pending, Ok)
    requires NeverOverfull(max, c, chunks)
    ensures var t := ReceiveAll(max, c, chunks);
            var d := Drain(max, c.pending + Joined(chunks));
            && t.frames == c.frames + d.frames && t.failure == d.failure
            && (d.failure == Ok ==> t.pending == d.rest)
    decreases |chunks|
  {
    hide Parse, Drain;
    if chunks == [] {
      assert c.pending + Joined(chunks) == c.pending;
      assert c.frames + [] == c.frames;
    } else {
      var first := c.pending + chunks[0];
      var d := Drain(max, first);
      var next := Receive(max, c, chunks[0]);
      assert c.pending + Joined(chunks) == first + Joined(chunks[1..]);
      DrainAppend(max, first, Joined(chunks[1..]));
      if d.failure == Ok {
        DrainAgain(max, first);
        ChunkingIrrelevant(max, next, chunks[1..]);
        var e := Drain(max, d.rest + Joined(chunks[1..]));
        assert (c.frames + d.frames) + e.frames == c.frames + (d.frames + e.frames);
      } else {
        FailedStays(max, next, chunks[1..]);
      }
    }
  }

  /** What a drain leaves yields nothing more. */
  lemma {:induction false} DrainAgain(max: nat, p: seq<byte>)
    requires Drain(max, p).failure == Ok
    ensures Drain(max, Drain(max, p).rest) == Drained([], Drain(max, p).rest, Ok)
    decreases |p|
  {
    match Parse(max, p)
    case More =>
    case Bad(why) =>
    case Got(f, rest) => DrainAgain(max, rest);
  }

  /** Two ways of cutting the same bytes deliver the same frames and the same failure. */
  lemma ChunkingsAgree(max: nat, a: seq<seq<byte>>, b: seq<seq<byte>>)
    requires Joined(a) == Joined(b)
    requires NeverOverfull(max, NEW_CONN, a) && NeverOverfull(max, NEW_CONN, b)
    ensures ReceiveAll(max, NEW_CONN, a).frames == ReceiveAll(max, NEW_CONN, b).frames
    ensures ReceiveAll(max, NEW_CONN, a).failure == ReceiveAll(max, NEW_CONN, b).failure
  {
    ChunkingIrrelevant(max, NEW_CONN, a);
    ChunkingIrrelevant(max, NEW_CONN, b);
  }

  /** How many chunks are taken before the first that overfills the buffer; all of them once something else failed. */
  function Fitting(max: nat, c: Conn, chunks: seq<seq<byte>>): (k: nat)
    ensures k <= |chunks|
    decreases |chunks|
  {
    if chunks == [] || c.failure != Ok then |chunks|
    else if |c.pending| + |chunks[0]| > max + HEADER then 0
    else 1 + Fitting(max, Receive(max, c, chunks[0]), chunks[1..])
  }

  /** A connection takes the chunks that fit, and is closed by the first that does not. */
  lemma {:induction false} FittingSplits(max: nat, c: Conn, chunks: seq<seq<byte>>)
    ensures var k := Fitting(max, c, chunks);
            var t := ReceiveAll(max, c, chunks[..k]);
            && NeverOverfull(max, c, chunks[..k])
            && (k == |chunks| <==> NeverOverfull(max, c, chunks))
            && (k < |chunks| ==> t.failure == Ok && ReceiveAll(max, c, chunks) == t.(failure := Oversized))
    decreases |chunks|
  {
    hide Receive;
    var k := Fitting(max, c, chunks);
    if chunks == [] || c.failure != Ok {
      assert chunks[..k] == chunks;
    } else if |c.pending| + |chunks[0]| > max + HEADER {
      OverfullCloses(max, c, chunks);
    } else {
      FittingSplits(max, Receive(max, c, chunks[0]), chunks[1..]);
      assert chunks[..k][1..] == chunks[1..][..k - 1];
    }
  }

  lemma OverfullCloses(max: nat, c: Conn, chunks: seq<seq<byte>>)
    requires chunks != [] && c.failure == Ok && |c.pending| + |chunks[0]| > max + HEADER
    ensures ReceiveAll(max, c, chunks) == c.(failure := Oversized)
  {
    FailedStays(max, Receive(max, c, chunks[0]), chunks[1..]);
  }

  /**
   * However the bytes are cut: the frames are those of the bytes before the first chunk that overfills the buffer, and
   * the failure is that of those bytes, or the overflow.
   */
  lemma ChunkingExact(max: nat, c: Conn, chunks: seq<seq<byte>>)
    requires c.failure == Ok && Drain(max, c.pending) == Drained([], c.pending, Ok)
    ensures var k := Fitting(max, c, chunks);
            var t := ReceiveAll(max, c, chunks);
            var d := Drain(max, c.pending + Joined(chunks[..k]));
            && t.frames == c.frames + d.frames
            && t.failure == (if k < |chunks| then Oversized else d.failure) && (k < |chunks| ==> d.failure == Ok)
            && (d.failure == Ok ==> t.pending == d.rest)
  {
    hide Drain, NeverOverfull, Fitting;
    var k := Fitting(max, c, chunks);
    FittingSplits(max, c, chunks);
    ChunkingIrrelevant(max, c, chunks[..k]);
    assert k == |chunks| ==> chunks[..k] == chunks;
  }

  /** Sendable frames cut anywhere arrive whole, and the connection stays clean, exactly when no chunk overfills it. */
  lemma FramesArrive(max: nat, fs: seq<Frame>, chunks: seq<seq<byte>>)
    requires max < U32 && (forall i :: 0 <= i < |fs| ==> Sendable(max, fs[i]))
    requires Joined(chunks) == EncodeAll(fs)
    ensures ReceiveAll(max, NEW_CONN, chunks) == Conn(fs, [], Ok) <==> NeverOverfull(max, NEW_CONN, chunks)
  {
    hide Drain, Sendable, NeverOverfull, ReceiveAll, EncodeAll, Joined, Fitting;
    FittingSplits(max, NEW_CONN, chunks);
    if NeverOverfull(max, NEW_CONN, chunks) {
      DrainNothing(max);
      ChunkingIrrelevant(max, NEW_CONN, chunks);
      DrainEncoded(max, fs);
      assert [] + EncodeAll(fs) == EncodeAll(fs);
      assert [] + fs == fs;
    }
  }

  lemma EncodeTwo(f: Frame, g: Frame)
    ensures EncodeAll([f]) == Encode(f) && EncodeAll([f, g]) == Encode(f) + Encode(g)
  {
    hide Encode;
    EncodeOne(f);
    EncodeOne(g);
    assert [f, g][1..] == [g];
  }

  lemma EncodeOne(f: Frame)
    ensures EncodeAll([f]) == Encode(f)
  {
    hide Encode;
    assert [f][1..] == [];
    assert EncodeAll([f]) == Encode(f) + EncodeAll([]);
  }

  lemma OneChunk(max: nat, chunk: seq<byte>)
    ensures Joined([chunk]) == chunk
    ensures NeverOverfull(max, NEW_CONN, [chunk]) <==> |chunk| <= max + HEADER
  {
    var chunks: seq<seq<byte>> := [chunk];
    assert chunks[1..] == [];
    assert Joined(chunks) == chunk + [];
  }

  /** Two whole frames in one chunk are delivered exactly when their payloads and one header are within the bound. */
  lemma TwoInOneChunk(max: nat, f: Frame, g: Frame)
    requires max < U32 && Sendable(max, f) && Sendable(max, g)
    ensures ReceiveAll(max, NEW_CONN, [Encode(f) + Encode(g)]) == Conn([f, g], [], Ok)
            <==> |f.payload| + |g.payload| + HEADER <= max
  {
    hide Sendable, ReceiveAll, NeverOverfull, Joined, EncodeAll, Encode;
    EncodeTwo(f, g);
    OneChunk(max, Encode(f) + Encode(g));
    FramesArrive(max, [f, g], [Encode(f) + Encode(g)]);
  }

  /** Two empty frames, each within the bound: delivered one at a time, refused because they come together. */
  lemma TwoFramesRefused(f: Frame)
    requires f == Frame(1, 0, [])
    ensures ReceiveAll(0, NEW_CONN, [Encode(f), Encode(f)]) == Conn([f, f], [], Ok)
    ensures ReceiveAll(0, NEW_CONN, [Encode(f) + Encode(f)]) == Conn([], [], Oversized)
  {
    hide Encode, Receive, EncodeAll;
    EncodeTwo(f, f);
    var last, apart: seq<seq<byte>> := [Encode(f)], [Encode(f), Encode(f)];
    assert apart[1..] == last && last[1..] == [];
    assert Joined(last) == Encode(f) + [];
    OneFrameDrains(f);
    assert NeverOverfull(0, Receive(0, Conn([f], [], Ok), Encode(f)), []);
    assert NeverOverfull(0, Conn([f], [], Ok), last);
    assert NeverOverfull(0, NEW_CONN, apart);
    assert Joined(apart) == Encode(f) + Joined(last);
    FramesArrive(0, [f, f], apart);
    OverfullCloses(0, NEW_CONN, [Encode(f) + Encode(f)]);
  }

  lemma OneFrameDrains(f: Frame)
    requires Sendable(0, f)
    ensures Receive(0, NEW_CONN, Encode(f)) == Conn([f], [], Ok)
  {
    hide Encode, Sendable, Drain, EncodeAll;
    EncodeOne(f);
    DrainEncoded(0, [f]);
    assert [] + Encode(f) == Encode(f) && [] + [f] == [f];
    EmptyPayload(f);
  }

  lemma EmptyPayload(f: Frame)
    requires Sendable(0, f)
    ensures |Encode(f)| == HEADER
  {}

  /** Bytes that come one at a time never overfill the buffer. */
  lemma {:induction false} SingleBytesFit(max: nat, c: Conn, chunks: seq<seq<byte>>)
    requires forall i :: 0 <= i < |chunks| ==> |chunks[i]| <= 1
    requires c.failure == Ok ==> |c.pending| < max + HEADER
    ensures NeverOverfull(max, c, chunks)
    decreases |chunks|
  {
    hide Parse;
    if chunks != [] && c.failure == Ok {
      var next := Receive(max, c, chunks[0]);
      if next.failure == Ok {
        DrainedIsShort(max, c.pending + chunks[0]);
      }
      SingleBytesFit(max, next, chunks[1..]);
    }
  }

  // ---- the decoder object ----

  class FrameDecoder {
    const max: nat
    var buffer: array<byte>
    var buffered: nat
    var failure: Outcome

    ghost predicate Valid()
      reads this, buffer
    {
      buffered <= buffer.Length
    }

    ghost function Pending(): seq<byte>
      requires Valid()
      reads this, buffer
    {
      buffer[..buffered]
    }

    constructor (max: nat)
      ensures Valid() && fresh(buffer)
      ensures this.max == max && Pending() == [] && failure == Ok
    {
      this.max := max;
      buffer := new byte[0];
      buffered, failure := 0, Ok;
    }

    /** The first failure stays. */
    method Fail(o: Outcome) returns (r: Outcome)
      modifies this`failure
      ensures failure == (if old(failure) == Ok then o else old(failure)) && r == failure
    {
      if failure == Ok {
        failure := o;
      }
      r := failure;
    }

    method Feed(bytes: seq<byte>) returns (o: Outcome)
      requires Valid()
      modifies this, buffer
      ensures Valid() && (buffer == old(buffer) || fresh(buffer))
      ensures old(failure) != Ok ==> o == old(failure) && failure == old(failure) && Pending() == old(Pending())
      ensures old(failure) == Ok && |old(Pending())| + |bytes| > max + HEADER ==>
                o == Oversized && failure == Oversized && Pending() == old(Pending())
      ensures old(failure) == Ok && |old(Pending())| + |bytes| <= max + HEADER ==>
                o == Ok && failure == Ok && Pending() == old(Pending()) + bytes
    {
      if failure != Ok {
        return failure;
      }
      var total := buffered + |bytes|;
      if total > max + HEADER {
        o := Fail(Oversized);
        return;
      }
      if buffer.Length < total {
        Resize(total);
      }
      CopyIn(bytes);
      o := Ok;
    }

    method CopyIn(bytes: seq<byte>)
      requires Valid() && buffered + |bytes| <= buffer.Length
      modifies this`buffered, buffer
      ensures Valid() && Pending() == old(Pending()) + bytes
    {
      ghost var before := Pending();
      for i := 0 to |bytes|
        invariant Valid() && buffered + |bytes| <= buffer.Length
        invariant buffered == |before| && Pending() == before
        invariant buffer[buffered..buffered + i] == bytes[..i]
      {
        buffer[buffered + i] := bytes[i];
      }
      buffered := buffered + |bytes|;
      assert buffer[..buffered] == before + bytes;
    }

    method Resize(total: nat)
      requires Valid() && buffer.Length < total
      modifies this`buffer
      ensures Valid() && fresh(buffer) && buffer.Length == total && Pending() == old(Pending())
    {
      var bigger := new byte[total];
      for i := 0 to buffered
        invariant Valid() && bigger[..i] == buffer[..i]
        invariant Pending() == old(Pending())
      {
        bigger[i] := buffer[i];
      }
      buffer := bigger;
    }

    /** Produces the next complete frame and shifts what follows to the front. */
    method Next() returns (o: Outcome, frame: Frame)
      requires Valid()
      modifies this, buffer
      ensures Valid() && buffer == old(buffer)
      ensures old(failure) != Ok ==> o == old(failure) && failure == old(failure) && Pending() == old(Pending())
      ensures old(failure) == Ok ==>
                match Parse(max, old(Pending()))
                case More => o == NotFound && failure == Ok && Pending() == old(Pending())
                case Bad(why) => o == why && failure == why && Pending() == old(Pending())
                case Got(f, rest) => o == Ok && failure == Ok && frame == f && Pending() == rest
    {
      hide Put, Get, Integrity;
      frame := Frame(1, 0, []);
      if failure != Ok {
        return failure, frame;
      }
      if buffered < HEADER {
        return NotFound, frame;
      }
      var p := buffer[..buffered];
      if Field(p, 0, 4) != FRAME_MAGIC {
        o := Fail(Corrupt);
        return;
      }
      if Field(p, 4, 2) != PROTOCOL_VERSION {
        o := Fail(Unsupported);
        return;
      }
      var kind := Field(p, 6, 2);
      if !ValidKind(kind) {
        o := Fail(Invalid);
        return;
      }
      if Field(p, 8, 4) != 0 {
        o := Fail(Invalid);
        return;
      }
      var length := Field(p, 12, 4);
      if length > max {
        o := Fail(Oversized);
        return;
      }
      var total := HEADER + length;
      if buffered < total {
        return NotFound, frame;
      }
      if Integrity(p[..16], p[HEADER..total]) != Field(p, 16, 4) {
        o := Fail(Corrupt);
        return;
      }
      frame := Frame(kind, 0, p[HEADER..total]);
      ShiftDown(total);
      o := Ok;
    }

    method ShiftDown(total: nat)
      requires Valid() && 0 < total <= buffered
      modifies this`buffered, buffer
      ensures Valid() && Pending() == old(Pending())[total..]
    {
      ghost var p := Pending();
      for i := total to buffered
        invariant buffered == |p| <= buffer.Length
        invariant buffer[..i - total] == p[total..i]
        invariant buffer[i..buffered] == p[i..]
      {
        assert buffer[i] == buffer[i..buffered][0];
        buffer[i - total] := buffer[i];
        assert p[total..i + 1] == p[total..i] + [p[i]];
        assert buffer[..i + 1 - total] == buffer[..i - total] + [buffer[i - total]];
      }
      buffered := buffered - total;
    }

    method Finish() returns (o: Outcome)
      requires Valid()
      modifies this`failure
      ensures Valid() && Pending() == old(Pending())
      ensures old(failure) != Ok ==> o == old(failure) && failure == old(failure)
      ensures old(failure) == Ok ==> o == failure && (o == Ok <==> Pending() == []) && (o == Ok || o == Malformed)
    {
      if failure != Ok {
        return failure;
      }
      if buffered != 0 {
        o := Fail(Malformed);
        return;
      }
      o := Ok;
    }

    /** The connection's loop: take frames until there is none. */
    method TakeAll() returns (frames: seq<Frame>)
      requires Valid() && failure == Ok
      modifies this, buffer
      ensures Valid() && buffer == old(buffer)
      ensures var d := Drain(max, old(Pending()));
              frames == d.frames && Pending() == d.rest && failure == d.failure
    {
      hide Parse, Drain, Get, Put;
      frames := [];
      ghost var whole := Drain(max, Pending());
      assert [] + whole.frames == whole.frames;
      while true
        invariant Valid() && failure == Ok && buffer == old(buffer)
        invariant Continues(max, frames, Pending(), whole)
        decreases buffered
      {
        ghost var before := Pending();
        DrainStep(max, frames, before, whole);
        var got, f := Next();
        if got != Ok {
          return;
        }
        frames := frames + [f];
      }
    }

    /** One turn of the connection: feed what arrived, then take what is complete. */
    method FeedAndDrain(chunk: seq<byte>, ghost c: Conn) returns (frames: seq<Frame>)
      requires Valid() && c.pending == Pending() && c.failure == failure
      modifies this, buffer
      ensures Valid() && (buffer == old(buffer) || fresh(buffer))
      ensures var d := Receive(max, c, chunk);
              c.frames + frames == d.frames && Pending() == d.pending && failure == d.failure
    {
      hide Parse, Drain, Get, Put;
      var o := Feed(chunk);
      if o != Ok {
        assert c.frames + [] == c.frames;
        return [];
      }
      frames := TakeAll();
    }
  }

  /** Having taken these frames, draining the rest completes the whole. */
  ghost predicate Continues(max: nat, frames: seq<Frame>, p: seq<byte>, whole: Drained) {
    var d := Drain(max, p);
    frames + d.frames == whole.frames && d.rest == whole.rest && d.failure == whole.failure
  }

  lemma DrainStep(max: nat, frames: seq<Frame>, p: seq<byte>, whole: Drained)
    requires Continues(max, frames, p, whole)
    ensures match Parse(max, p)
            case More => frames == whole.frames && whole.rest == p && whole.failure == Ok
            case Bad(why) => frames == whole.frames && whole.rest == p && whole.failure == why
            case Got(f, rest) => Continues(max, frames + [f], rest, whole)
  {
    hide Parse;
    if Parse(max, p).Got? {
      var f, rest := Parse(max, p).frame, Parse(max, p).rest;
      assert (frames + [f]) + Drain(max, rest).frames == frames + ([f] + Drain(max, rest).frames);
    } else {
      assert frames + [] == frames;
    }
  }
}
