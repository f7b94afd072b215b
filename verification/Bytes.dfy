/**
 Bytes, little-endian fields and the disk as the file systems see it.
 */
module Bytes {
  import opened Options
  import opened Sizes

  type Byte = x: nat | x < 256

  const SECTOR: nat := 512
  const U16: nat := 0x1_0000
  const U32: nat := 0x1_0000_0000

  function Get16(b: seq<Byte>, o: nat): (v: nat)
    requires o + 2 <= |b|
    ensures v < U16
  {
    (b[o] as nat) + 256 * (b[o + 1] as nat)
  }

  function Get32(b: seq<Byte>, o: nat): (v: nat)
    requires o + 4 <= |b|
    ensures v < U32
  {
    Get16(b, o) + U16 * Get16(b, o + 2)
  }

  /** disk_read_sectors: count sectors from lba, or a failure. */
  type Disk = (nat, nat) -> Option<seq<Byte>>

  ghost predicate DiskOk(d: Disk)
  {
    forall lba: nat, n: nat :: d(lba, n).Some? ==> |d(lba, n).value| == n * SECTOR
  }

  function Zeros(n: nat): (z: seq<Byte>)
    ensures |z| == n && forall i :: 0 <= i < n ==> z[i] == 0
  {
    seq(n, _ => 0)
  }

  /** a with the bytes d in place from index at on. */
  function Over(a: seq<Byte>, at: nat, d: seq<Byte>): (r: seq<Byte>)
    requires at + |d| <= |a|
    ensures |r| == |a|
    ensures forall i :: 0 <= i < at ==> r[i] == a[i]
    ensures forall j :: 0 <= j < |d| ==> r[at + j] == d[j]
    ensures forall i :: at + |d| <= i < |a| ==> r[i] == a[i]
  {
    a[..at] + d + a[at + |d|..]
  }

  /** memcpy into a buffer. */
  method CopyInto(buffer: array<Byte>, at: nat, d: seq<Byte>)
    requires at + |d| <= buffer.Length
    modifies buffer
    ensures buffer[..] == Over(old(buffer[..]), at, d)
  {
    forall j | 0 <= j < |d| {
      buffer[at + j] := d[j];
    }
    assert forall i :: 0 <= i < buffer.Length ==> buffer[..][i] == Over(old(buffer[..]), at, d)[i];
  }

  // ---- Powers ----------------------------------------------------------------------------

  function Pow256(n: nat): (p: nat)
    ensures p > 0
  {
    if n == 0 then 1 else 256 * Pow256(n - 1)
  }

  lemma PowStep(n: nat)
    requires n > 0
    ensures Pow256(n) == 256 * Pow256(n - 1)
  {
  }

  lemma PowValues()
    ensures Pow256(8) == U64
  {
    assert Pow256(2) == 0x1_0000;
    assert Pow256(4) == 0x1_0000_0000;
    assert Pow256(6) == 0x1_0000_0000_0000;
  }
}
