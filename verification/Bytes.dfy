/** Little-endian integers as bytes, and the shared outcome codes. */
module Bytes {
  import opened Crc

  datatype Outcome =
    | Ok | NoEvidence | Unknown | Stale | Conflict | Indeterminate | SearchLimitReached
    | Invalid | Unsupported | Malformed | Oversized | Duplicate | Replayed | Regressed | NotFound
    | Exhausted | Rejected | Corrupt | Interrupted | Fenced | Revoked | Expired | Unavailable

  datatype Option<+T> = None | Some(value: T)

  /** The low k bytes of n, lowest first. */
  function Put(n: nat, k: nat): (s: seq<byte>)
    ensures |s| == k
  {
    if k == 0 then [] else [n % 256] + Put(n / 256, k - 1)
  }

  function Get(s: seq<byte>): nat {
    if s == [] then 0 else s[0] + 256 * Get(s[1..])
  }

  function Limit(k: nat): nat {
    if k == 0 then 1 else 256 * Limit(k - 1)
  }

  lemma {:induction false} GetPut(n: nat, k: nat)
    requires n < Limit(k)
    ensures Get(Put(n, k)) == n
  {
    if k > 0 {
      GetPut(n / 256, k - 1);
      assert Put(n, k)[1..] == Put(n / 256, k - 1);
    }
  }

  lemma {:induction false} PutGet(s: seq<byte>)
    ensures Get(s) < Limit(|s|) && Put(Get(s), |s|) == s
  {
    if s != [] {
      PutGet(s[1..]);
      PutStep(s[0], Get(s[1..]), |s|);
      assert s == [s[0]] + s[1..];
    }
  }

  lemma PutStep(low: byte, high: nat, k: nat)
    requires k > 0
    ensures Put(low + 256 * high, k) == [low] + Put(high, k - 1)
  {
    assert (low + 256 * high) % 256 == low && (low + 256 * high) / 256 == high;
  }

  const U16: nat := 65536
  const U32: nat := 4294967296
  const U64: nat := 18446744073709551616

  lemma Limits()
    ensures Limit(2) == U16 && Limit(4) == U32 && Limit(8) == U64
  {
    assert Limit(4) == 256 * (256 * (256 * (256 * Limit(0))));
    assert Limit(8) == 256 * (256 * (256 * (256 * Limit(4))));
  }

  /** The checksum of a byte string as a number. */
  function Checksum(data: seq<byte>): (n: nat)
    ensures n < U32
  {
    Crc32c(data, 0) as nat
  }

  lemma ChecksumStored(data: seq<byte>)
    ensures Get(Put(Checksum(data), 4)) == Checksum(data)
  {
    Limits();
    GetPut(Checksum(data), 4);
  }

  /** The number in k bytes at a position. */
  function Field(p: seq<byte>, at: nat, k: nat): nat
    requires at + k <= |p|
  {
    Get(p[at..at + k])
  }

  lemma FieldOf(p: seq<byte>, at: nat, k: nat, n: nat)
    requires at + k <= |p| && p[at..at + k] == Put(n, k) && n < Limit(k)
    ensures Field(p, at, k) == n
  {
    GetPut(n, k);
  }
}
