/**
 fs/ntfs.c: decoding of data runs and reading through them.  The record bytes
 are those after the update-sequence fixup.
 */
module Ntfs {
  import opened Arith
  import opened Options
  import opened Sizes
  import opened Bytes
  import opened FileBlocks

  /** secs: sectors per cluster, of 512 bytes each. */
  datatype Fs = Fs(disk: Disk, lbaStart: nat, secs: nat, recordSize: nat, mftLba: nat)

  function ClusterSize(fs: Fs): nat { fs.secs * SECTOR }

  ghost predicate FsOk(fs: Fs) { DiskOk(fs.disk) && 0 < fs.secs < 256 }

  // ---- Numbers in a data run --------------------------------------------------------------

  /** Unsigned little-endian number in n bytes from o on. */
  function Unsigned(b: seq<Byte>, o: nat, n: nat): nat
    requires o + n <= |b|
  {
    if n == 0 then 0 else Unsigned(b, o, n - 1) + (b[o + n - 1] as nat) * Pow256(n - 1)
  }

  /** Two's complement number in n bytes from o on. */
  function Signed(b: seq<Byte>, o: nat, n: nat): int
    requires o + n <= |b| && n > 0
  {
    var u := Unsigned(b, o, n);
    if (b[o + n - 1] as nat) >= 0x80 then u - Pow256(n) else u
  }

  /** The value of a 64-bit pattern as int64_t. */
  function AsSigned(u: int): int { if u >= 0x8000_0000_0000_0000 then u - U64 else u }

  lemma {:induction false} UnsignedBound(b: seq<Byte>, o: nat, n: nat)
    requires o + n <= |b|
    ensures Unsigned(b, o, n) < Pow256(n)
  {
    if n > 0 {
      UnsignedBound(b, o, n - 1);
      var p, x := Pow256(n - 1), b[o + n - 1] as nat;
      hide Pow256;
      TopBound(p, x);
      assert Pow256(n) == 256 * p by { PowStep(n); }
    }
  }

  lemma TopBound(p: nat, x: nat)
    requires x < 256
    ensures x * p <= 255 * p
  {
    MulMonotone(p, x, 255);
  }

  /** The length field: run_clusters |= byte << (8 i). */
  method DecodeUnsigned(b: seq<Byte>, o: nat, n: nat) returns (u: nat)
    requires o + n <= |b|
    ensures u == Unsigned(b, o, n)
  {
    u := 0;
    var place := 1;
    for i := 0 to n
      invariant u == Unsigned(b, o, i) && place == Pow256(i)
    {
      u := u + (b[o + i] as nat) * place;
      place := 256 * place;
    }
  }

  /** The offset field: the bytes are collected, and when the top bit of the last
      one is set the bytes above are filled with 0xFF. */
  method DecodeSigned(b: seq<Byte>, o: nat, n: nat) returns (delta: int)
    requires 0 < n <= 8 && o + n <= |b|
    ensures delta == Signed(b, o, n)
  {
    var u := DecodeUnsigned(b, o, n);
    UnsignedBound(b, o, n);
    UnsignedBound(b, o, n - 1);
    PowValues();
    TopByte(b, o, n);
    var high := HighByte(u, n);
    if high >= 0x80 {
      var i := n;
      while i < 8
        invariant n <= i <= 8 && u == Unsigned(b, o, n) + Pow256(i) - Pow256(n)
      {
        u := u + 0xFF * Pow256(i);
        i := i + 1;
      }
    }
    SignedValue(b, o, n);
    delta := AsSigned(u);
  }

  /** (uint8_t)(u >> (8 (n - 1))). */
  function HighByte(u: nat, n: nat): nat
    requires n > 0
  {
    u / Pow256(n - 1) % 256
  }

  lemma TopByte(b: seq<Byte>, o: nat, n: nat)
    requires 0 < n && o + n <= |b|
    ensures HighByte(Unsigned(b, o, n), n) == b[o + n - 1] as nat
  {
    UnsignedBound(b, o, n - 1);
    var p, x := Pow256(n - 1), b[o + n - 1] as nat;
    assert Unsigned(b, o, n) == p * x + Unsigned(b, o, n - 1);
    DivModUnique(Unsigned(b, o, n), p, x, Unsigned(b, o, n - 1));
  }

  lemma {:induction false} PowMonotone(i: nat, j: nat)
    requires i <= j
    ensures Pow256(i) <= Pow256(j)
    decreases j - i
  {
    if i < j { PowMonotone(i, j - 1); }
  }

  /** The 64-bit pattern read as signed is the two's complement value. */
  lemma SignedValue(b: seq<Byte>, o: nat, n: nat)
    requires 0 < n <= 8 && o + n <= |b|
    ensures (b[o + n - 1] as nat) >= 0x80 ==> AsSigned(Unsigned(b, o, n) + Pow256(8) - Pow256(n)) == Signed(b, o, n)
    ensures (b[o + n - 1] as nat) < 0x80 ==> AsSigned(Unsigned(b, o, n)) == Signed(b, o, n)
  {
    PowValues();
    UnsignedBound(b, o, n);
    UnsignedBound(b, o, n - 1);
    PowMonotone(n, 8);
    PowMonotone(n - 1, 7);
    var p, x := Pow256(n - 1), b[o + n - 1] as nat;
    assert 256 * Pow256(7) == Pow256(8);
    if x >= 0x80 {
      MulMonotone(p, 0x80, x);
      assert x * p >= 128 * p && Pow256(n) == 256 * p;
    } else {
      MulMonotone(p, x, 0x7F);
      assert x * p <= 127 * p;
    }
  }

  // ---- Data runs -------------------------------------------------------------------------

  /** A run of clusters; lcn is absolute. */
  datatype Run = Run(clusters: nat, lcn: int, sparse: bool)

  function LenBytes(b: seq<Byte>, o: nat): nat requires o < |b| { (b[o] as nat) % 16 }

  function OffBytes(b: seq<Byte>, o: nat): nat requires o < |b| { (b[o] as nat) / 16 }

  predicate LastRun(b: seq<Byte>, o: nat) requires o < |b| { b[o] == 0 || LenBytes(b, o) == 0 }

  function NextRun(b: seq<Byte>, o: nat): nat requires o < |b| { o + 1 + LenBytes(b, o) + OffBytes(b, o) }

  /** The run list at o ends inside b and no field is wider than eight bytes. */
  predicate RunsFit(b: seq<Byte>, o: nat)
    decreases |b| - o
  {
    && o < |b|
    && (LastRun(b, o) || (LenBytes(b, o) <= 8 && OffBytes(b, o) <= 8 && NextRun(b, o) < |b| && RunsFit(b, NextRun(b, o))))
  }

  /** The run at o, when the previous one started at lcn. */
  function RunAt(b: seq<Byte>, o: nat, lcn: int): Run
    requires o < |b| && NextRun(b, o) <= |b|
  {
    var len, off := LenBytes(b, o), OffBytes(b, o);
    Run(Unsigned(b, o + 1, len), lcn + if off == 0 then 0 else Signed(b, o + 1 + len, off), off == 0)
  }

  function Decode(b: seq<Byte>, o: nat, lcn: int): seq<Run>
    requires RunsFit(b, o)
    decreases |b| - o
  {
    if LastRun(b, o) then []
    else [RunAt(b, o, lcn)] + Decode(b, NextRun(b, o), RunAt(b, o, lcn).lcn)
  }

  /** Where a cluster of the file is: nowhere, or at an absolute cluster number. */
  datatype Loc = Hole | At(lcn: int)

  function LocIn(r: Run, i: nat): Loc { if r.sparse then Hole else At(r.lcn + i) }

  /** All clusters of the file, run after run. */
  function Expand(runs: seq<Run>): seq<Loc>
  {
    if runs == [] then [] else seq(runs[0].clusters, i requires 0 <= i => LocIn(runs[0], i)) + Expand(runs[1..])
  }

  function Total(runs: seq<Run>): nat
  {
    if runs == [] then 0 else runs[0].clusters + Total(runs[1..])
  }

  /** First sector of a cluster, with the 64-bit arithmetic of the source. */
  function ClusterLba(lbaStart: nat, lcn: int, secs: nat): nat { (lbaStart + lcn % U64 * secs) % U64 }

  function LocData(fs: Fs, loc: Loc): Option<seq<Byte>>
  {
    if loc.Hole? then Some(Zeros(ClusterSize(fs))) else fs.disk(ClusterLba(fs.lbaStart, loc.lcn, fs.secs), fs.secs)
  }

  /** The file: its clusters in order, holes as zeros. */
  function Content(fs: Fs, runs: seq<Run>): Blocks
  {
    (v: nat) => if v < |Expand(runs)| then LocData(fs, Expand(runs)[v]) else None
  }

  lemma {:induction false} ExpandAt(runs: seq<Run>, k: nat, i: nat)
    requires k < |runs| && i < runs[k].clusters
    ensures Total(runs[..k]) + i < |Expand(runs)| && Expand(runs)[Total(runs[..k]) + i] == LocIn(runs[k], i)
  {
    if k > 0 {
      assert runs[1..][k - 1] == runs[k] && runs[..k][1..] == runs[1..][..k - 1];
      ExpandAt(runs[1..], k - 1, i);
    }
  }

  lemma {:induction false} TotalStep(runs: seq<Run>, k: nat)
    requires k < |runs|
    ensures Total(runs[..k + 1]) == Total(runs[..k]) + runs[k].clusters <= Total(runs)
    ensures runs[k..] == [runs[k]] + runs[k + 1..]
  {
    TotalUpTo(runs, k);
    TotalUpTo(runs, k + 1);
  }

  lemma {:induction false} TotalUpTo(runs: seq<Run>, k: nat)
    requires k <= |runs|
    ensures Total(runs[..k]) + Total(runs[k..]) == Total(runs)
  {
    if k > 0 {
      assert runs[..k][1..] == runs[1..][..k - 1] && runs[1..][k - 1..] == runs[k..];
      TotalUpTo(runs[1..], k - 1);
    } else {
      assert runs[0..] == runs;
    }
  }

  /** Cluster i of run k. */
  lemma ContentAt(fs: Fs, runs: seq<Run>, k: nat, i: nat)
    requires k < |runs| && i < runs[k].clusters
    ensures Content(fs, runs)(Total(runs[..k]) + i) == LocData(fs, LocIn(runs[k], i))
  {
    ExpandAt(runs, k, i);
  }

  lemma LocSize(fs: Fs, loc: Loc)
    requires FsOk(fs) && LocData(fs, loc).Some?
    ensures |LocData(fs, loc).value| == ClusterSize(fs)
  {
  }

  /** Bytes in n clusters. */
  function Span(cs: nat, n: nat): nat { n * cs }

  lemma SpanSum(cs: nat, a: nat, b: nat)
    ensures Span(cs, a + b) == Span(cs, a) + Span(cs, b)
  {
    MulDistributes(cs, a, b);
  }

  lemma SpanNext(cs: nat, n: nat)
    ensures Span(cs, n + 1) == Span(cs, n) + cs
  {
  }

  lemma SpanMonotone(cs: nat, a: nat, b: nat)
    requires a <= b
    ensures Span(cs, a) <= Span(cs, b)
  {
    MulMonotone(cs, a, b);
  }

  /** How far the slice has got when the runs before cluster number vcn are done. */
  function Upto(cs: nat, vcn: nat, offset: nat, size: nat): nat { Clip(Span(cs, vcn), offset, size) }

  /** The loop over the clusters of run k stands at byte got of the request. */
  ghost predicate Standing(cs: nat, vcn: nat, r: Run, idx: nat, intra: nat, offset: nat, size: nat, got: nat)
  {
    ( && idx <= r.clusters && intra < cs && got <= size
      && (got < size ==> offset + got == Span(cs, vcn) + Span(cs, idx) + intra && (idx == r.clusters ==> intra == 0))
      && (got == size ==> offset + size <= Span(cs, vcn) + Span(cs, idx))) == true
  }

  /** The part of a request that run k holds is copied cluster by cluster. */
  method ReadRun(fs: Fs, r: Run, vcn: nat, offset: nat, size: nat, before: nat, buffer: array<Byte>, ghost runs: seq<Run>, ghost k: nat)
    returns (ok: bool, got: nat)
    requires FsOk(fs) && k < |runs| && r == runs[k] && vcn == Total(runs[..k])
    requires size <= buffer.Length && before == Upto(ClusterSize(fs), vcn, offset, size) < size
    requires Span(ClusterSize(fs), vcn + r.clusters) > offset && Span(ClusterSize(fs), vcn) < offset + size
    requires Filled(Content(fs, runs), ClusterSize(fs), offset, buffer[..], before)
    modifies buffer
    ensures before <= got <= size && Filled(Content(fs, runs), ClusterSize(fs), offset, buffer[..], got)
    ensures forall i :: got <= i < buffer.Length ==> buffer[i] == old(buffer[i])
    ensures ok ==> got == Upto(ClusterSize(fs), vcn + r.clusters, offset, size)
    ensures !ok ==> got < Upto(ClusterSize(fs), vcn + r.clusters, offset, size)
                    && !Readable(Content(fs, runs), ClusterSize(fs), offset + got)
  {
    hide FsOk, Filled, Content, ClusterSize, BlockIx, BlockOff, LocData, Total, Span, Standing, Upto;
    var cs := ClusterSize(fs);
    ClusterPositive(fs);
    var start := Span(cs, vcn);
    var from := if offset > start then offset - start else 0;
    var until := if offset + size < start + Span(cs, r.clusters) then offset + size - start else Span(cs, r.clusters);
    var idx: nat := BlockIx(cs, from);
    var intra: nat := BlockOff(cs, from);
    StandAtStart(cs, vcn, r, idx, intra, offset, size, before, from);
    got := before;
    while idx < r.clusters && Span(cs, idx) < until && got < size
      invariant before <= got <= size && Standing(cs, vcn, r, idx, intra, offset, size, got)
      invariant Filled(Content(fs, runs), cs, offset, buffer[..], got)
      invariant forall i :: got <= i < buffer.Length ==> buffer[..][i] == old(buffer[..])[i]
      decreases r.clusters - idx
    {
      Place(cs, vcn, r, idx, intra, offset, size, got);
      ContentAt(fs, runs, k, idx);
      var data := LocData(fs, LocIn(r, idx));
      if data.None? {
        return false, got;
      }
      LocSize(fs, LocIn(r, idx));
      var n := cs - intra;
      if n > size - got {
        n := size - got;
      }
      FillStep(Content(fs, runs), cs, offset, buffer[..], got, data.value, intra, n);
      CopyInto(buffer, got, data.value[intra..intra + n]);
      StandOn(cs, vcn, r, idx, intra, offset, size, got, n);
      got := got + n;
      intra, idx := 0, idx + 1;
    }
    RunDone(cs, vcn, r, idx, intra, offset, size, got, until);
    return true, got;
  }

  lemma ClusterPositive(fs: Fs)
    requires FsOk(fs)
    ensures ClusterSize(fs) > 0
  {
  }

  lemma StandAtStart(cs: nat, vcn: nat, r: Run, idx: nat, intra: nat, offset: nat, size: nat, got: nat, from: nat)
    requires cs > 0 && got == Upto(cs, vcn, offset, size) < size && Span(cs, vcn + r.clusters) > offset
    requires from == (if offset > Span(cs, vcn) then offset - Span(cs, vcn) else 0) && idx == BlockIx(cs, from) && intra == BlockOff(cs, from)
    requires Span(cs, vcn) < offset + size
    ensures Standing(cs, vcn, r, idx, intra, offset, size, got)
  {
    DivMod(from, cs);
    SpanSum(cs, vcn, r.clusters);
    if idx >= r.clusters { SpanMonotone(cs, r.clusters, idx); }
  }

  lemma Place(cs: nat, vcn: nat, r: Run, idx: nat, intra: nat, offset: nat, size: nat, got: nat)
    requires cs > 0 && Standing(cs, vcn, r, idx, intra, offset, size, got) && got < size && idx < r.clusters
    ensures intra < cs && BlockIx(cs, offset + got) == vcn + idx && BlockOff(cs, offset + got) == intra
    ensures got < Upto(cs, vcn + r.clusters, offset, size)
  {
    SpanSum(cs, vcn, idx);
    DivModUnique(offset + got, cs, vcn + idx, intra);
    SpanNext(cs, vcn + idx);
    SpanMonotone(cs, vcn + idx + 1, vcn + r.clusters);
  }

  lemma StandOn(cs: nat, vcn: nat, r: Run, idx: nat, intra: nat, offset: nat, size: nat, got: nat, n: nat)
    requires cs > 0 && Standing(cs, vcn, r, idx, intra, offset, size, got) && got < size && idx < r.clusters
    requires n == if cs - intra > size - got then size - got else cs - intra
    ensures Standing(cs, vcn, r, idx + 1, 0, offset, size, got + n)
  {
    SpanNext(cs, idx);
  }

  lemma RunDone(cs: nat, vcn: nat, r: Run, idx: nat, intra: nat, offset: nat, size: nat, got: nat, until: nat)
    requires cs > 0 && Standing(cs, vcn, r, idx, intra, offset, size, got)
    requires until == if offset + size < Span(cs, vcn) + Span(cs, r.clusters) then offset + size - Span(cs, vcn) else Span(cs, r.clusters)
    requires idx >= r.clusters || Span(cs, idx) >= until || got >= size
    requires Span(cs, vcn + r.clusters) > offset && Span(cs, vcn) < offset + size
    ensures got == Upto(cs, vcn + r.clusters, offset, size)
  {
    SpanSum(cs, vcn, r.clusters);
    SpanMonotone(cs, idx, r.clusters);
    if idx < r.clusters { SpanNext(cs, idx); SpanMonotone(cs, idx + 1, r.clusters); }
  }

  /** The non-resident part of ntfs_read: the run list is decoded as it is walked. */
  method ReadRuns(fs: Fs, b: seq<Byte>, o: nat, offset: nat, size: nat, buffer: array<Byte>) returns (got: nat)
    requires FsOk(fs) && RunsFit(b, o) && size <= buffer.Length
    requires offset + size < U64 && Span(ClusterSize(fs), Total(Decode(b, o, 0))) < U64
    modifies buffer
    ensures got <= Upto(ClusterSize(fs), Total(Decode(b, o, 0)), offset, size)
    ensures Filled(Content(fs, Decode(b, o, 0)), ClusterSize(fs), offset, buffer[..], got)
    ensures forall i :: got <= i < buffer.Length ==> buffer[i] == old(buffer[i])
    ensures got < Upto(ClusterSize(fs), Total(Decode(b, o, 0)), offset, size) ==>
              !Readable(Content(fs, Decode(b, o, 0)), ClusterSize(fs), offset + got)
  {
    hide FsOk, Filled, Content, ClusterSize, Total, Span, Upto, Unsigned, Signed, BlockIx;
    ghost var runs := Decode(b, o, 0);
    ghost var k := 0;
    var cs := ClusterSize(fs);
    ClusterPositive(fs);
    NoneFilled(Content(fs, runs), cs, offset, buffer[..]);
    NothingYet(cs, offset, size, runs);
    var run, lcn, vcn := o, 0, 0;
    got := 0;
    assert runs[0..] == runs;
    while b[run] != 0 && got < size
      invariant RunsFit(b, run) && k <= |runs| && Decode(b, run, lcn) == runs[k..]
      invariant vcn == Total(runs[..k]) && got == Upto(cs, vcn, offset, size) <= size
      invariant Filled(Content(fs, runs), cs, offset, buffer[..], got)
      invariant forall i :: got <= i < buffer.Length ==> buffer[..][i] == old(buffer[..])[i]
      decreases |b| - run
    {
      var lenBytes := (b[run] as nat) % 16;
      var offBytes := (b[run] as nat) / 16;
      if lenBytes == 0 {
        break;
      }
      var clusters := DecodeUnsigned(b, run + 1, lenBytes);
      if offBytes > 0 {
        var delta := DecodeSigned(b, run + 1 + lenBytes, offBytes);
        lcn := lcn + delta;
      }
      ghost var r := runs[k..][0];
      assert runs[k] == r;
      assert runs[k] == Run(clusters, lcn, offBytes == 0);
      TotalStep(runs, k);
      EndsBefore(cs, vcn, clusters, Total(runs), offset, size);
      if Span(cs, vcn + clusters) > offset && Span(cs, vcn) < offset + size {
        var ok;
        ok, got := ReadRun(fs, Run(clusters, lcn, offBytes == 0), vcn, offset, size, got, buffer, runs, k);
        if !ok {
          return;
        }
      }
      vcn := vcn + clusters;
      run := run + 1 + lenBytes + offBytes;
      k := k + 1;
      assert runs[k - 1..][1..] == runs[k..];
    }
    AllDone(cs, runs, k, offset, size, got);
  }

  lemma NothingYet(cs: nat, offset: nat, size: nat, runs: seq<Run>)
    ensures Total(runs[..0]) == 0 && Upto(cs, 0, offset, size) == 0
  {
  }

  lemma EndsBefore(cs: nat, vcn: nat, n: nat, total: nat, offset: nat, size: nat)
    requires vcn + n <= total
    ensures Upto(cs, vcn + n, offset, size) <= Upto(cs, total, offset, size)
    ensures !(Span(cs, vcn + n) > offset && Span(cs, vcn) < offset + size) ==>
              Upto(cs, vcn + n, offset, size) == Upto(cs, vcn, offset, size)
  {
    SpanMonotone(cs, vcn, vcn + n);
    SpanMonotone(cs, vcn + n, total);
  }

  lemma AllDone(cs: nat, runs: seq<Run>, k: nat, offset: nat, size: nat, got: nat)
    requires k <= |runs| && got == Upto(cs, Total(runs[..k]), offset, size) && (got >= size || k == |runs|)
    ensures got == Upto(cs, Total(runs), offset, size)
  {
    TotalUpTo(runs, k);
    SpanMonotone(cs, Total(runs[..k]), Total(runs));
    if k == |runs| { assert runs[..k] == runs; }
  }

  /** The clusters of the runs one after the other, sparse ones as zeros. */
  function RunBytes(fs: Fs, runs: seq<Run>): seq<Byte> { FileBytes(Content(fs, runs), ClusterSize(fs), Total(runs)) }

  lemma {:induction false} ExpandCount(runs: seq<Run>)
    ensures |Expand(runs)| == Total(runs)
  {
    if runs != [] { ExpandCount(runs[1..]); }
  }

  /** What a read of the runs delivers is the slice [offset, offset + got) of these
      bytes. */
  lemma ReadIsSlice(fs: Fs, runs: seq<Run>, offset: nat, b: seq<Byte>, got: nat)
    requires FsOk(fs) && ClusterSize(fs) > 0 && got > 0 && Filled(Content(fs, runs), ClusterSize(fs), offset, b, got)
    ensures got <= |b| && offset + got <= |RunBytes(fs, runs)| == ClusterSize(fs) * Total(runs)
    ensures b[..got] == RunBytes(fs, runs)[offset..offset + got]
  {
    hide FsOk, LocData, Expand, Total, FileBytes, BlockIx, BlockOff, ClusterSize;
    ExpandCount(runs);
    var d, cs := Content(fs, runs), ClusterSize(fs);
    forall k: nat ensures d(k).Some? ==> |d(k).value| == cs {
      if d(k).Some? { LocSize(fs, Expand(runs)[k]); }
    }
    var last := offset + got - 1;
    assert FilledAt(d, cs, offset, got - 1, b[got - 1]);
    OffWithin(cs, last);
    assert BlockIx(cs, last) < Total(runs);
    MulMonotone(cs, BlockIx(cs, last) + 1, Total(runs));
    MulDistributes(cs, BlockIx(cs, last), 1);
    FilledIsSlice(d, cs, offset, b, got, Total(runs));
  }
}
