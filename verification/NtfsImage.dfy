/**
 An NTFS file as a writer lays it out in a disk image: the MFT record with its update
 sequence, its attributes byte by byte, the run list and the clusters.  The reader of
 fs/ntfs.c gives it back.
 */
module NtfsImage {
  import opened Arith
  import opened Options
  import opened Sizes
  import opened Bytes
  import opened FileBlocks
  import opened Images
  import opened Ntfs
  import opened NtfsEncoding
  import opened NtfsRecord

  // ---- Attributes --------------------------------------------------------------------------

  /** The header of an attribute of length bytes; other are the fields the reader ignores. */
  function HeadBytes(kind: nat, length: nat, nonResident: Byte, other: seq<Byte>): (b: seq<Byte>)
    requires kind < Pow256(4) && length < Pow256(4) && |other| == 7
    ensures |b| == 16
  {
    Le(kind, 4) + (Le(length, 4) + ([nonResident] + other))
  }

  /** An attribute with its value, skip bytes behind the header, inside the record. */
  function ResidentBytes(kind: nat, other: seq<Byte>, flags: seq<Byte>, skip: seq<Byte>, value: seq<Byte>, pad: seq<Byte>): seq<Byte>
    requires kind < Pow256(4) && |other| == 7 && |flags| == 2 && 24 + |skip| < Pow256(2) && 24 + |skip| + |value| + |pad| < Pow256(4)
  {
    HeadBytes(kind, 24 + |skip| + |value| + |pad|, 0, other) + (Le(|value|, 4) + (Le(24 + |skip|, 2) + (flags + (skip + (value + pad)))))
  }

  /** An attribute with a run list behind its header and its skip bytes. */
  function NonResidentBytes(kind: nat, mark: Byte, other: seq<Byte>, vcns: seq<Byte>, skip: seq<Byte>, runs: seq<Byte>, pad: seq<Byte>): seq<Byte>
    requires kind < Pow256(4) && |other| == 7 && |vcns| == 16 && 34 + |skip| < Pow256(2) && 34 + |skip| + |runs| + |pad| < Pow256(4)
  {
    HeadBytes(kind, 34 + |skip| + |runs| + |pad|, mark, other) + (vcns + (Le(34 + |skip|, 2) + (skip + (runs + pad))))
  }

  lemma ReadsHead(b: seq<Byte>, a: nat, kind: nat, length: nat, nonResident: Byte, other: seq<Byte>)
    requires kind < Pow256(4) && length < Pow256(4) && |other| == 7 && Lies(b, a, HeadBytes(kind, length, nonResident, other))
    ensures a + 16 <= |b| && Get32(b, a) == kind && Get32(b, a + 4) == length && b[a + 8] == nonResident
  {
    hide Le, Lies, Get32, Pow256;
    LiesParts(b, a, Le(kind, 4), Le(length, 4) + ([nonResident] + other));
    LiesParts(b, a + 4, Le(length, 4), [nonResident] + other);
    LiesParts(b, a + 8, [nonResident], other);
    LiesIs(b, a + 9, other);
    LiesAt(b, a + 8, [nonResident], 0);
    Reads32(b, a, kind);
    Reads32(b, a + 4, length);
  }

  lemma ReadsResident(b: seq<Byte>, a: nat, kind: nat, other: seq<Byte>, flags: seq<Byte>, skip: seq<Byte>, value: seq<Byte>, pad: seq<Byte>)
    requires kind < Pow256(4) && |other| == 7 && |flags| == 2 && 24 + |skip| < Pow256(2) && 24 + |skip| + |value| + |pad| < Pow256(4)
    requires Lies(b, a, ResidentBytes(kind, other, flags, skip, value, pad))
    ensures a + 24 <= |b| && Get32(b, a) == kind && Resident(b, a) && ValueLength(b, a) == |value| && Lies(b, ValueStart(b, a), value)
  {
    hide Le, Lies, Get16, Get32, Pow256, HeadBytes;
    var head, n, o := HeadBytes(kind, 24 + |skip| + |value| + |pad|, 0, other), Le(|value|, 4), Le(24 + |skip|, 2);
    LiesParts(b, a, head, n + (o + (flags + (skip + (value + pad)))));
    LiesParts(b, a + 16, n, o + (flags + (skip + (value + pad))));
    LiesParts(b, a + 20, o, flags + (skip + (value + pad)));
    LiesParts(b, a + 22, flags, skip + (value + pad));
    LiesParts(b, a + 24, skip, value + pad);
    LiesParts(b, a + 24 + |skip|, value, pad);
    LiesIs(b, a + 22, flags);
    ReadsHead(b, a, kind, 24 + |skip| + |value| + |pad|, 0, other);
    Reads32(b, a + 16, |value|);
    Reads16(b, a + 20, 24 + |skip|);
  }

  lemma ReadsNonResident(b: seq<Byte>, a: nat, kind: nat, mark: Byte, other: seq<Byte>, vcns: seq<Byte>, skip: seq<Byte>,
                         runs: seq<Byte>, pad: seq<Byte>)
    requires kind < Pow256(4) && |other| == 7 && |vcns| == 16 && 34 + |skip| < Pow256(2) && 34 + |skip| + |runs| + |pad| < Pow256(4)
    requires Lies(b, a, NonResidentBytes(kind, mark, other, vcns, skip, runs, pad)) && mark != 0
    ensures a + 34 <= |b| && Get32(b, a) == kind && !Resident(b, a) && Lies(b, RunsStart(b, a), runs)
  {
    hide Le, Lies, Get16, Get32, Pow256, HeadBytes;
    var head, o := HeadBytes(kind, 34 + |skip| + |runs| + |pad|, mark, other), Le(34 + |skip|, 2);
    LiesParts(b, a, head, vcns + (o + (skip + (runs + pad))));
    LiesParts(b, a + 16, vcns, o + (skip + (runs + pad)));
    LiesParts(b, a + 32, o, skip + (runs + pad));
    LiesParts(b, a + 34, skip, runs + pad);
    LiesParts(b, a + 34 + |skip|, runs, pad);
    LiesIs(b, a + 34, skip);
    ReadsHead(b, a, kind, 34 + |skip| + |runs| + |pad|, mark, other);
    Reads16(b, a + 32, 34 + |skip|);
  }

  // ---- Records -----------------------------------------------------------------------------

  function Cat(attrs: seq<seq<Byte>>): seq<Byte> { if attrs == [] then [] else attrs[0] + Cat(attrs[1..]) }

  /** An attribute of that type: its header has the type and the length. */
  predicate AttrOf(a: seq<Byte>, kind: nat)
  {
    16 <= |a| < U32 && Field(a, 0, 4, kind) && kind != 0xFFFF_FFFF && Field(a, 4, 4, |a|)
  }

  /** No attribute begins here: too little room, or the end mark. */
  predicate NoAttr(b: seq<Byte>) { |b| < 16 || Field(b, 0, 4, 0xFFFF_FFFF) }

  lemma FieldAt(b: seq<Byte>, o: nat, w: seq<Byte>, i: nat, n: nat, x: nat)
    requires Lies(b, o, w) && Field(w, i, n, x)
    ensures Field(b, o + i, n, x)
  {
    hide Le;
    var u, v := b[o + i..o + i + n], w[i..i + n];
    assert forall j :: 0 <= j < n ==> u[j] == b[o..o + |w|][i + j] == v[j];
    assert u == v;
  }

  lemma TailParts(b: seq<Byte>, o: nat, a: seq<Byte>, rest: seq<Byte>)
    requires o <= |b| && b[o..] == a + rest
    ensures Lies(b, o, a) && o + |a| <= |b| && b[o + |a|..] == rest
  {
    assert |b| - o == |a| + |rest|;
    assert b[o..o + |a|] == b[o..][..|a|] && b[o + |a|..] == b[o..][|a|..];
  }

  lemma ReadsAttr(b: seq<Byte>, off: nat, a: seq<Byte>, kind: nat)
    requires Lies(b, off, a) && AttrOf(a, kind)
    ensures AttrHere(b, off) && Get32(b, off) == kind && Get32(b, off + 4) == |a|
  {
    hide Le, Lies, Get32, Field;
    FieldAt(b, off, a, 0, 4, kind);
    FieldAt(b, off, a, 4, 4, |a|);
    LiesIs(b, off, a);
    Reads32(b, off, kind);
    Reads32(b, off + 4, |a|);
  }

  lemma ReadsEnd(b: seq<Byte>, off: nat, rest: seq<Byte>)
    requires off <= |b| && b[off..] == rest && NoAttr(rest)
    ensures !AttrHere(b, off)
  {
    hide Le, Get32, Field;
    if off + 16 <= |b| {
      assert Lies(b, off, rest);
      FieldAt(b, off, rest, 0, 4, 0xFFFF_FFFF);
      Reads32(b, off, 0xFFFF_FFFF);
    }
  }

  /** Attributes of the types kinds, one after the other from off on. */
  predicate AttrsLie(b: seq<Byte>, off: nat, attrs: seq<seq<Byte>>, kinds: seq<nat>, rest: seq<Byte>)
  {
    && off <= |b| < U32 && b[off..] == Cat(attrs) + rest && NoAttr(rest)
    && |attrs| == |kinds| && forall i :: 0 <= i < |attrs| ==> AttrOf(attrs[i], kinds[i])
  }

  lemma AttrsLieNext(b: seq<Byte>, off: nat, attrs: seq<seq<Byte>>, kinds: seq<nat>, rest: seq<Byte>)
    requires AttrsLie(b, off, attrs, kinds, rest) && attrs != []
    ensures |attrs| == |kinds| && AttrOf(attrs[0], kinds[0]) && Lies(b, off, attrs[0]) && off + |attrs[0]| < U32
    ensures AttrsLie(b, off + |attrs[0]|, attrs[1..], kinds[1..], rest)
  {
    hide AttrOf, NoAttr;
    assert Cat(attrs) + rest == attrs[0] + (Cat(attrs[1..]) + rest);
    TailParts(b, off, attrs[0], Cat(attrs[1..]) + rest);
  }

  /** The search finds the first attribute of the type where it was put. */
  lemma {:induction false} FindsFirst(b: seq<Byte>, off: nat, attrs: seq<seq<Byte>>, kinds: seq<nat>, rest: seq<Byte>, kind: nat, i: nat)
    requires AttrsLie(b, off, attrs, kinds, rest) && i < |attrs| && kinds[i] == kind && kind !in kinds[..i]
    ensures AttrsOk(b, off) && Find(b, off, kind).Some? && Lies(b, Find(b, off, kind).value, attrs[i])
    decreases |attrs|
  {
    hide AttrsLie, AttrHere, Get32, AttrOf, Lies;
    AttrsLieNext(b, off, attrs, kinds, rest);
    ReadsAttr(b, off, attrs[0], kinds[0]);
    AllOk(b, off, attrs, kinds, rest);
    if i > 0 {
      assert kinds[0] == kinds[..i][0];
      assert kinds[1..][..i - 1] == kinds[..i][1..];
      FindsFirst(b, off + |attrs[0]|, attrs[1..], kinds[1..], rest, kind, i - 1);
    }
  }

  lemma {:induction false} AllOk(b: seq<Byte>, off: nat, attrs: seq<seq<Byte>>, kinds: seq<nat>, rest: seq<Byte>)
    requires AttrsLie(b, off, attrs, kinds, rest)
    ensures AttrsOk(b, off)
    decreases |attrs|
  {
    hide AttrHere, Get32, AttrOf, Lies, NoAttr;
    if attrs == [] {
      assert Cat(attrs) + rest == rest;
      ReadsEnd(b, off, rest);
    } else {
      AttrsLieNext(b, off, attrs, kinds, rest);
      hide AttrsLie;
      ReadsAttr(b, off, attrs[0], kinds[0]);
      AllOk(b, off + |attrs[0]|, attrs[1..], kinds[1..], rest);
    }
  }

  /** Nor is anything found that was not put there. */
  lemma {:induction false} FindsNone(b: seq<Byte>, off: nat, attrs: seq<seq<Byte>>, kinds: seq<nat>, rest: seq<Byte>, kind: nat)
    requires AttrsLie(b, off, attrs, kinds, rest) && kind !in kinds
    ensures Find(b, off, kind).None?
    decreases |attrs|
  {
    hide AttrHere, Get32, AttrOf, Lies, NoAttr;
    if attrs == [] {
      assert Cat(attrs) + rest == rest;
      ReadsEnd(b, off, rest);
    } else {
      AttrsLieNext(b, off, attrs, kinds, rest);
      hide AttrsLie;
      ReadsAttr(b, off, attrs[0], kinds[0]);
      FindsNone(b, off + |attrs[0]|, attrs[1..], kinds[1..], rest, kind);
    }
  }

  /** A volume in an image. */
  datatype Place = Place(img: seq<Byte>, lbaStart: nat, secs: nat, recordSecs: nat, mftLba: nat)

  predicate PlaceOk(p: Place) { 0 < p.secs < 256 && 0 < p.recordSecs < 256 }

  function FsOf(p: Place): Fs { Fs(DiskOf(p.img), p.lbaStart, p.secs, 512 * p.recordSecs, p.mftLba) }

  lemma FsOfOk(p: Place)
    requires PlaceOk(p)
    ensures FsOk(FsOf(p)) && RecordSize(FsOf(p)) && ClusterSize(FsOf(p)) == 512 * p.secs
  {
    DiskOfOk(p.img);
  }

  /** A record r, as it is on disk in raw, with attributes from first on. */
  datatype Kept = Kept(raw: seq<Byte>, r: seq<Byte>, first: nat, attrs: seq<seq<Byte>>, kinds: seq<nat>, rest: seq<Byte>)

  /** MFT record number rec is w.r, protected by an update sequence that lies between the
      header and the attributes. */
  predicate RecordLies(p: Place, rec: nat, w: Kept)
  {
    && |w.raw| == 512 * p.recordSecs && Lies(p.img, 512 * (p.mftLba + rec * p.recordSecs), w.raw) && Field(w.raw, 0, 4, 0x454C_4946)
    && Protects(w.r, w.raw) && 22 <= Usa(w.raw) && Usa(w.raw) + 2 * Slots(w.raw) + 2 <= w.first
    && Field(w.r, 20, 2, w.first) && AttrsLie(w.r, w.first, w.attrs, w.kinds, w.rest)
  }

  lemma RecordLba(rec: nat, secs: nat)
    ensures rec * (512 * secs) / 512 == rec * secs && 512 * secs / 512 == secs
  {
    assert rec * (512 * secs) == 512 * (rec * secs);
    DivModUnique(512 * (rec * secs), 512, rec * secs, 0);
  }

  lemma ReadsRaw(p: Place, rec: nat, raw: seq<Byte>)
    requires |raw| == 512 * p.recordSecs && Lies(p.img, 512 * (p.mftLba + rec * p.recordSecs), raw)
    ensures RawRecord(FsOf(p), rec) == Some(raw)
  {
    hide Lies, DiskOf;
    RecordLba(rec, p.recordSecs);
    ReadsSectors(p.img, p.mftLba + rec * p.recordSecs, p.recordSecs, raw);
  }

  /** Equal from o on. */
  lemma SameTail(r: seq<Byte>, f: seq<Byte>, o: nat)
    requires |r| == |f| && o <= |r| && forall x :: o <= x < |r| ==> f[x] == r[x]
    ensures f[o..] == r[o..]
  {
  }

  /** The record that was protected is the one that is loaded. */
  lemma ReadsRecord(p: Place, rec: nat, w: Kept) returns (f: seq<Byte>)
    requires RecordLies(p, rec, w)
    ensures RawRecord(FsOf(p), rec) == Some(w.raw) && UsaFits(w.raw) && Record(FsOf(p), rec) == Some(f)
    ensures |f| == |w.r| >= 22 && Get16(f, 20) == w.first && AttrsLie(f, w.first, w.attrs, w.kinds, w.rest)
  {
    hide Le, Get16, Get32, Slots, SectorEnd;
    FixUndoes(w.r, w.raw);
    f := Fix(w.raw).value;
    ReadsRaw(p, rec, w.raw);
    Reads32(w.raw, 0, 0x454C_4946);
    SameTail(w.r, f, w.first);
    assert f[20..22] == w.r[20..22];
    Reads16(f, 20, w.first);
  }

  // ---- Clusters ----------------------------------------------------------------------------

  /** Cluster lcn holds w. */
  predicate ClusterHolds(p: Place, lcn: int, w: seq<Byte>)
  {
    && 0 <= lcn < U64 && |w| == 512 * p.secs && p.lbaStart + lcn * p.secs < U64
    && Lies(p.img, 512 * (p.lbaStart + lcn * p.secs), w)
  }

  lemma NoWrap(lbaStart: nat, lcn: nat, secs: nat)
    requires lcn < U64 && lbaStart + lcn * secs < U64
    ensures ClusterLba(lbaStart, lcn, secs) == lbaStart + lcn * secs
  {
    assert lcn % U64 == lcn;
  }

  lemma ReadsCluster(p: Place, lcn: nat, w: seq<Byte>)
    requires ClusterHolds(p, lcn, w)
    ensures LocData(FsOf(p), At(lcn)) == Some(w)
  {
    hide Lies, DiskOf, ClusterLba;
    NoWrap(p.lbaStart, lcn, p.secs);
    ReadsSectors(p.img, ClusterLba(p.lbaStart, lcn, p.secs), p.secs, w);
  }

  lemma InTotal(runs: seq<Run>, k: nat, i: nat)
    requires k < |runs| && i < runs[k].clusters
    ensures Total(runs[..k]) + i < Total(runs)
  {
    TotalStep(runs, k);
  }

  /** Cluster i of run k holds its block of the data; a sparse one stands for zeros. */
  predicate RunBlock(p: Place, runs: seq<Run>, data: seq<Byte>, k: nat, i: nat)
    requires |data| == 512 * p.secs * Total(runs) && k < |runs| && i < runs[k].clusters
  {
    InTotal(runs, k, i);
    BlockInside(512 * p.secs, Total(runs[..k]) + i, Total(runs));
    var w := BlockOf(data, 512 * p.secs, Total(runs[..k]) + i);
    if runs[k].sparse then w == Zeros(512 * p.secs) else ClusterHolds(p, runs[k].lcn + i, w)
  }

  predicate DataWritten(p: Place, runs: seq<Run>, data: seq<Byte>)
  {
    |data| == 512 * p.secs * Total(runs) && forall k, i :: 0 <= k < |runs| && 0 <= i < runs[k].clusters ==> RunBlock(p, runs, data, k, i)
  }

  /** The run and the place in it of cluster v of the file. */
  lemma {:induction false} Locate(runs: seq<Run>, v: nat) returns (k: nat, i: nat)
    requires v < Total(runs)
    ensures k < |runs| && i < runs[k].clusters && v == Total(runs[..k]) + i
  {
    if v < runs[0].clusters {
      k, i := 0, v;
    } else {
      k, i := Locate(runs[1..], v - runs[0].clusters);
      assert runs[..k + 1][1..] == runs[1..][..k];
      k := k + 1;
    }
  }

  lemma ContentIsData(p: Place, runs: seq<Run>, data: seq<Byte>)
    requires DataWritten(p, runs, data)
    ensures Holds(Content(FsOf(p), runs), 512 * p.secs, Total(runs), data)
  {
    hide Total, Content, LocData, BlockOf, ClusterHolds;
    var d, bs, n := Content(FsOf(p), runs), 512 * p.secs, Total(runs);
    forall v: nat | v < n ensures bs * (v + 1) <= |data| && d(v) == Some(BlockOf(data, bs, v)) {
      BlockInside(bs, v, n);
      var k, i := Locate(runs, v);
      assert RunBlock(p, runs, data, k, i);
      ContentAt(FsOf(p), runs, k, i);
      ReadsLoc(p, runs[k], i, BlockOf(data, bs, v));
    }
  }

  lemma ReadsLoc(p: Place, r: Run, i: nat, w: seq<Byte>)
    requires if r.sparse then w == Zeros(512 * p.secs) else ClusterHolds(p, r.lcn + i, w)
    ensures LocData(FsOf(p), LocIn(r, i)) == Some(w)
  {
    if !r.sparse { ReadsCluster(p, r.lcn + i, w); }
  }

  // ---- Files -------------------------------------------------------------------------------

  /** Attribute i is the data attribute, and its runs xs lead to the data. */
  ghost predicate RunFile(p: Place, w: Kept, i: nat, xs: seq<Sized>, data: seq<Byte>)
  {
    && i < |w.attrs| == |w.kinds| && w.kinds[i] == 0x80 && 0x80 !in w.kinds[..i] && Encodable(xs, 0)
    && DataWritten(p, RunsOf(xs), data) && |data| < U64
    && exists mark: Byte, other: seq<Byte>, vcns: seq<Byte>, skip: seq<Byte>, pad: seq<Byte> ::
         NonResidentIs(w.attrs[i], mark, other, vcns, skip, Encode(xs, 0), pad)
  }

  predicate NonResidentIs(a: seq<Byte>, mark: Byte, other: seq<Byte>, vcns: seq<Byte>, skip: seq<Byte>, runs: seq<Byte>, pad: seq<Byte>)
  {
    && mark != 0 && |other| == 7 && |vcns| == 16 && 34 + |skip| < Pow256(2) && 34 + |skip| + |runs| + |pad| < Pow256(4)
    && 0x80 < Pow256(4) && a == NonResidentBytes(0x80, mark, other, vcns, skip, runs, pad)
  }

  lemma RunsAt(b: seq<Byte>, a: nat, bytes: seq<Byte>, xs: seq<Sized>)
    requires Encodable(xs, 0) && Lies(b, a, bytes)
    requires exists mark: Byte, other: seq<Byte>, vcns: seq<Byte>, skip: seq<Byte>, pad: seq<Byte> ::
               NonResidentIs(bytes, mark, other, vcns, skip, Encode(xs, 0), pad)
    ensures a + 34 <= |b| && !Resident(b, a) && RunsFit(b, RunsStart(b, a)) && Decode(b, RunsStart(b, a), 0) == RunsOf(xs)
  {
    hide NonResidentBytes, Encode, RunsFit, Decode, RunsOf, Get16, Get32, Encodable, Resident, RunsStart;
    var mark: Byte, other: seq<Byte>, vcns: seq<Byte>, skip: seq<Byte>, pad: seq<Byte> :|
      NonResidentIs(bytes, mark, other, vcns, skip, Encode(xs, 0), pad);
    ReadsNonResident(b, a, 0x80, mark, other, vcns, skip, Encode(xs, 0), pad);
    var o := RunsStart(b, a);
    var e := Encode(xs, 0);
    assert b[o..] == e + b[o + |e|..];
    DecodeFrom(b, o, xs, 0, b[o + |e|..]);
  }

  lemma SpanIs(p: Place, runs: seq<Run>, data: seq<Byte>)
    requires DataWritten(p, runs, data)
    ensures Span(512 * p.secs, Total(runs)) == |data|
  {
    hide RunBlock;
  }

  /** The record is fit to be read, and its runs are those that were encoded. */
  lemma RunFileLoads(p: Place, rec: nat, w: Kept, i: nat, xs: seq<Sized>, data: seq<Byte>) returns (f: seq<Byte>, a: nat)
    requires PlaceOk(p) && RecordLies(p, rec, w) && RunFile(p, w, i, xs, data)
    ensures FsOk(FsOf(p)) && FileOk(FsOf(p), rec) && Record(FsOf(p), rec) == Some(f) && DataAttr(FsOf(p), rec) == Some(a)
    ensures DataFits(FsOf(p), f, a) && !Resident(f, a) && Decode(f, RunsStart(f, a), 0) == RunsOf(xs)
  {
    hide Lies, Get16, AttrsLie, AttrsOk, Find, Encode, RunsFit, Decode, RunsOf, Encodable, Resident, RunsStart;
    hide Record, RawRecord, UsaFits, DataWritten, Span, Total, Protects, Field, Usa, Slots;
    FsOfOk(p);
    f := ReadsRecord(p, rec, w);
    FindsFirst(f, w.first, w.attrs, w.kinds, w.rest, 0x80, i);
    a := Find(f, w.first, 0x80).value;
    RunsAt(f, a, w.attrs[i], xs);
    SpanIs(p, RunsOf(xs), data);
    hide FsOk, FsOf;
  }

  /** A file written to an image: whatever ntfs_read leaves behind is, with memory for its
      buffers, the whole slice of the data that was asked for. */
  lemma ReadsBack(p: Place, rec: nat, w: Kept, i: nat, xs: seq<Sized>, data: seq<Byte>, fileSize: nat, offset: nat, size: nat, b: seq<Byte>, got: nat)
    requires PlaceOk(p) && RecordLies(p, rec, w) && RunFile(p, w, i, xs, data) && fileSize <= |data|
    requires FsOk(FsOf(p)) && FileOk(FsOf(p), rec) && Record(FsOf(p), rec).Some? && DataAttr(FsOf(p), rec).Some?
    requires DataFits(FsOf(p), Record(FsOf(p), rec).value, DataAttr(FsOf(p), rec).value)
    requires Delivered(FsOf(p), Record(FsOf(p), rec).value, DataAttr(FsOf(p), rec).value, offset, Clip(fileSize, offset, size), b, got)
    ensures got == Clip(fileSize, offset, size) <= |b|
    ensures got > 0 ==> offset + got <= |data| && b[..got] == data[offset..offset + got]
  {
    hide RecordLies, RunFile, FileOk, Record, DataAttr, DataFits, Delivered, FsOf, FsOk;
    var f, a := RunFileLoads(p, rec, w, i, xs, data);
    var want := Clip(fileSize, offset, size);
    RunFileData(p, w, i, xs, data);
    DeliveredRuns(FsOf(p), f, a, offset, want, b, got);
    ContentIsData(p, RunsOf(xs), data);
    FsOfOk(p);
    SpanIs(p, RunsOf(xs), data);
    if want > 0 { FilledFromHeld(Content(FsOf(p), RunsOf(xs)), 512 * p.secs, Total(RunsOf(xs)), data, offset, b, got, want); }
  }

  lemma RunFileData(p: Place, w: Kept, i: nat, xs: seq<Sized>, data: seq<Byte>)
    requires RunFile(p, w, i, xs, data)
    ensures DataWritten(p, RunsOf(xs), data)
  {
  }

  lemma DeliveredRuns(fs: Fs, f: seq<Byte>, a: nat, offset: nat, want: nat, b: seq<Byte>, got: nat)
    requires FsOk(fs) && DataFits(fs, f, a) && !Resident(f, a) && Delivered(fs, f, a, offset, want, b, got)
    ensures ClusterSize(fs) > 0
    ensures var runs := Decode(f, RunsStart(f, a), 0); var until := Clip(Span(ClusterSize(fs), Total(runs)), offset, want);
            got <= until && Filled(Content(fs, runs), ClusterSize(fs), offset, b, got)
            && (got < until ==> !Readable(Content(fs, runs), ClusterSize(fs), offset + got))
  {
    hide Filled, Readable, Content, Decode, RunsFit;
    ClusterPositive(fs);
  }

  /** Attribute i is the data attribute and has the value inside the record. */
  ghost predicate ValueFile(w: Kept, i: nat, value: seq<Byte>)
  {
    && i < |w.attrs| == |w.kinds| && w.kinds[i] == 0x80 && 0x80 !in w.kinds[..i]
    && exists other: seq<Byte>, flags: seq<Byte>, skip: seq<Byte>, pad: seq<Byte> :: ResidentIs(w.attrs[i], other, flags, skip, value, pad)
  }

  predicate ResidentIs(a: seq<Byte>, other: seq<Byte>, flags: seq<Byte>, skip: seq<Byte>, value: seq<Byte>, pad: seq<Byte>)
  {
    && |other| == 7 && |flags| == 2 && 24 + |skip| < Pow256(2) && 24 + |skip| + |value| + |pad| < Pow256(4)
    && 0x80 < Pow256(4) && a == ResidentBytes(0x80, other, flags, skip, value, pad)
  }

  lemma ValueFileLoads(p: Place, rec: nat, w: Kept, i: nat, value: seq<Byte>) returns (f: seq<Byte>, a: nat)
    requires PlaceOk(p) && RecordLies(p, rec, w) && ValueFile(w, i, value)
    ensures FsOk(FsOf(p)) && FileOk(FsOf(p), rec) && Record(FsOf(p), rec) == Some(f) && DataAttr(FsOf(p), rec) == Some(a)
    ensures DataFits(FsOf(p), f, a) && a + 24 <= |f| && Resident(f, a) && ValueLength(f, a) == |value| && Lies(f, ValueStart(f, a), value)
  {
    hide Lies, Get16, Get32, AttrsLie, AttrsOk, Find, Resident, Record, RawRecord, UsaFits, ResidentBytes;
    hide Protects, Field, Usa, Slots, ValueStart;
    FsOfOk(p);
    f := ReadsRecord(p, rec, w);
    FindsFirst(f, w.first, w.attrs, w.kinds, w.rest, 0x80, i);
    a := Find(f, w.first, 0x80).value;
    var other: seq<Byte>, flags: seq<Byte>, skip: seq<Byte>, pad: seq<Byte> :| ResidentIs(w.attrs[i], other, flags, skip, value, pad);
    ReadsResident(f, a, 0x80, other, flags, skip, value, pad);
    LiesIs(f, ValueStart(f, a), value);
    hide FsOk, FsOf;
  }

  /** The same for a file inside its record. */
  lemma ValueReadsBack(p: Place, rec: nat, w: Kept, i: nat, value: seq<Byte>, fileSize: nat, offset: nat, size: nat, b: seq<Byte>, got: nat)
    requires PlaceOk(p) && RecordLies(p, rec, w) && ValueFile(w, i, value) && fileSize <= |value|
    requires FsOk(FsOf(p)) && FileOk(FsOf(p), rec) && Record(FsOf(p), rec).Some? && DataAttr(FsOf(p), rec).Some?
    requires DataFits(FsOf(p), Record(FsOf(p), rec).value, DataAttr(FsOf(p), rec).value)
    requires Delivered(FsOf(p), Record(FsOf(p), rec).value, DataAttr(FsOf(p), rec).value, offset, Clip(fileSize, offset, size), b, got)
    ensures got == Clip(fileSize, offset, size) <= |b|
    ensures got > 0 ==> offset + got <= |value| && b[..got] == value[offset..offset + got]
  {
    hide RecordLies, ValueFile, FileOk, Record, DataAttr, DataFits, FsOf, FsOk, Resident, ValueStart, ValueLength, Lies, Decode, RunsFit, Filled;
    var f, a := ValueFileLoads(p, rec, w, i, value);
    DeliveredValue(FsOf(p), f, a, offset, Clip(fileSize, offset, size), b, got);
    if got > 0 {
      forall j | 0 <= j < got ensures b[j] == value[offset + j] { LiesAt(f, ValueStart(f, a), value, offset + j); }
      assert b[..got] == value[offset..offset + got];
    }
  }

  lemma DeliveredValue(fs: Fs, f: seq<Byte>, a: nat, offset: nat, want: nat, b: seq<Byte>, got: nat)
    requires FsOk(fs) && DataFits(fs, f, a) && Resident(f, a) && Delivered(fs, f, a, offset, want, b, got)
    ensures got == Clip(ValueLength(f, a), offset, want) <= |b| && (got > 0 ==> ValueStart(f, a) + offset + got <= |f|)
    ensures forall j :: 0 <= j < got ==> b[j] == f[ValueStart(f, a) + offset + j]
  {
  }
}
