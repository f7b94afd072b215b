/**
 fs/ntfs.c: loading an MFT record with its update-sequence fixup, finding an
 attribute in it, and reading a file through its data attribute.
 */
module NtfsRecord {
  import opened Arith
  import opened Options
  import opened Sizes
  import opened Bytes
  import opened FileBlocks
  import opened Ntfs

  const FILE_MAGIC: nat := 0x454C4946
  const ATTR_DATA: nat := 0x80
  const ATTR_END: nat := 0xFFFF_FFFF

  // ---- The fixup ------------------------------------------------------------------------

  /** Sector ends the loop looks at: one per array entry behind the check word, as
      long as the sector is inside the record. */
  function Slots(b: seq<Byte>): nat
    requires |b| >= 8
  {
    var n := Get16(b, 6);
    if n == 0 then 0 else if n - 1 <= |b| / 512 then n - 1 else |b| / 512
  }

  function Usa(b: seq<Byte>): nat requires |b| >= 8 { Get16(b, 4) }

  /** The part of the update sequence array the loop reads is inside the record. */
  predicate UsaFits(b: seq<Byte>) { |b| >= 8 && Usa(b) + 2 * Slots(b) + 2 <= |b| }

  /** Offset of the last word of sector i, counted from 1. */
  function EndOf(i: nat): nat requires i > 0 { 512 * i - 2 }

  /** The word at u copied to e. */
  function WordCopied(b: seq<Byte>, e: nat, u: nat): (r: seq<Byte>)
    requires e + 2 <= |b| && u + 2 <= |b|
    ensures |r| == |b|
  {
    b[e := b[u]][e + 1 := b[u + 1]]
  }

  /** The loop from sector i to sector n; None when a check word does not match. */
  function FixFrom(b: seq<Byte>, usa: nat, check: nat, i: nat, n: nat): Option<seq<Byte>>
    requires 0 < i && 512 * n <= |b| && usa + 2 * n + 2 <= |b|
    decreases n + 1 - i
  {
    if i > n then Some(b)
    else if Get16(b, EndOf(i)) != check then None
    else FixFrom(WordCopied(b, EndOf(i), usa + 2 * i), usa, check, i + 1, n)
  }

  lemma SlotsInside(b: seq<Byte>)
    requires |b| >= 8
    ensures 512 * Slots(b) <= |b|
  {
  }

  function Fix(b: seq<Byte>): Option<seq<Byte>>
    requires UsaFits(b)
  {
    SlotsInside(b);
    FixFrom(b, Usa(b), Get16(b, Usa(b)), 1, Slots(b))
  }

  /** Byte x after sectors i to n have been restored from the array. */
  function Restored(b: seq<Byte>, usa: nat, i: nat, n: nat, x: nat): Byte
    requires usa + 2 * n + 2 <= |b| && x < |b|
  {
    if x % 512 >= 510 && i <= x / 512 + 1 <= n then b[usa + 2 * (x / 512 + 1) + (x % 512 - 510)] else b[x]
  }

  /** With the array in the first sector the fixup succeeds exactly when every
      sector ends in the check word, and it then restores those words and
      nothing else. */
  lemma {:induction false} FixIs(b: seq<Byte>, usa: nat, check: nat, i: nat, n: nat)
    requires 0 < i && 512 * n <= |b| && usa + 2 * n + 2 <= |b| && usa + 2 * n + 2 <= 510
    ensures FixFrom(b, usa, check, i, n).Some? <==> forall j :: i <= j <= n ==> Get16(b, EndOf(j)) == check
    ensures FixFrom(b, usa, check, i, n).Some? ==>
              var r := FixFrom(b, usa, check, i, n).value;
              |r| == |b| && forall x :: 0 <= x < |b| ==> r[x] == Restored(b, usa, i, n, x)
    decreases n + 1 - i
  {
    if i <= n && Get16(b, EndOf(i)) == check {
      var c := WordCopied(b, EndOf(i), usa + 2 * i);
      FixIs(c, usa, check, i + 1, n);
      forall j | i < j <= n ensures Get16(c, EndOf(j)) == Get16(b, EndOf(j)) {
      }
      forall x | 0 <= x < |b| ensures Restored(c, usa, i + 1, n, x) == Restored(b, usa, i, n, x) {
        RestoredStep(b, c, usa, i, n, x);
      }
    }
  }

  lemma RestoredStep(b: seq<Byte>, c: seq<Byte>, usa: nat, i: nat, n: nat, x: nat)
    requires 0 < i <= n && 512 * n <= |b| && usa + 2 * n + 2 <= 510 && x < |b|
    requires c == WordCopied(b, EndOf(i), usa + 2 * i)
    ensures Restored(c, usa, i + 1, n, x) == Restored(b, usa, i, n, x)
  {
    DivMod(x, 512);
    var s, o := x / 512 + 1, x % 512;
    if o >= 510 && s == i {
      assert x == EndOf(i) + (o - 510);
    } else {
      assert x != EndOf(i) && x != EndOf(i) + 1;
    }
  }

  /** What a writer stores for record r: the sector ends go to the array, the check
      word takes their place. */
  predicate Protects(r: seq<Byte>, b: seq<Byte>)
  {
    && |r| == |b| >= 512 && UsaFits(b) && Usa(b) + 2 * Slots(b) + 2 <= 510
    && (forall j :: 1 <= j <= Slots(b) && EndOf(j) + 2 <= |b| ==>
          && Get16(b, EndOf(j)) == Get16(b, Usa(b))
          && b[Usa(b) + 2 * j] == r[EndOf(j)] && b[Usa(b) + 2 * j + 1] == r[EndOf(j) + 1])
    && (forall x :: 0 <= x < |b| && !InUsa(b, x) && !SectorEnd(b, x) ==> b[x] == r[x])
  }

  predicate InUsa(b: seq<Byte>, x: nat) requires |b| >= 8 { Usa(b) <= x < Usa(b) + 2 * Slots(b) + 2 }

  predicate SectorEnd(b: seq<Byte>, x: nat) requires |b| >= 8 { x % 512 >= 510 && x / 512 + 1 <= Slots(b) }

  /** The fixup undoes the protection: the record comes back, outside the array itself. */
  lemma FixUndoes(r: seq<Byte>, b: seq<Byte>)
    requires Protects(r, b)
    ensures Fix(b).Some? && |Fix(b).value| == |r|
    ensures forall x :: 0 <= x < |r| && !InUsa(b, x) ==> Fix(b).value[x] == r[x]
  {
    SlotsInside(b);
    var n := Slots(b);
    FixIs(b, Usa(b), Get16(b, Usa(b)), 1, n);
    var f := Fix(b).value;
    forall x | 0 <= x < |r| && !InUsa(b, x) ensures f[x] == r[x] {
      DivMod(x, 512);
      assert f[x] == Restored(b, Usa(b), 1, n, x);
      if SectorEnd(b, x) {
        var j := x / 512 + 1;
        assert x == EndOf(j) + (x % 512 - 510);
      }
    }
  }

  predicate RecordSize(fs: Fs) { 512 <= fs.recordSize < 256 * 512 && fs.recordSize % 512 == 0 }

  /** The sectors of an MFT record as they are on disk. */
  function RawRecord(fs: Fs, rec: nat): Option<seq<Byte>>
  {
    fs.disk(fs.mftLba + rec * fs.recordSize / SECTOR, fs.recordSize / SECTOR)
  }

  /** What ntfs_read_mft_record delivers. */
  function Record(fs: Fs, rec: nat): Option<seq<Byte>>
    requires RawRecord(fs, rec).Some? ==> UsaFits(RawRecord(fs, rec).value)
  {
    match RawRecord(fs, rec)
    case None => None
    case Some(b) => if Get32(b, 0) != FILE_MAGIC then None else Fix(b)
  }

  /** ntfs_read_mft_record: the record is read into buf and fixed up in place. */
  method ReadRecord(fs: Fs, rec: nat, buf: array<Byte>) returns (ok: bool)
    requires FsOk(fs) && RecordSize(fs) && buf.Length == fs.recordSize
    requires RawRecord(fs, rec).Some? ==> UsaFits(RawRecord(fs, rec).value)
    modifies buf
    ensures ok <==> Record(fs, rec).Some?
    ensures ok ==> buf[..] == Record(fs, rec).value
  {
    var raw := RawRecord(fs, rec);
    if raw.None? {
      return false;
    }
    assert |raw.value| == buf.Length;
    CopyInto(buf, 0, raw.value);
    assert buf[..] == raw.value;
    if Get32(buf[..], 0) != FILE_MAGIC {
      return false;
    }
    ok := FixInPlace(buf);
  }

  /** The fixup loop. */
  method FixInPlace(buf: array<Byte>) returns (ok: bool)
    requires UsaFits(buf[..])
    modifies buf
    ensures ok <==> Fix(old(buf[..])).Some?
    ensures ok ==> buf[..] == Fix(old(buf[..])).value
  {
    hide Get16;
    ghost var b := buf[..];
    var usa := Get16(buf[..], 4);
    var check := Get16(buf[..], usa);
    var len := Get16(buf[..], 6);
    SlotsInside(b);
    var i := 1;
    while i < len
      invariant |buf[..]| == |b| && 1 <= i <= Slots(b) + 1
      invariant FixFrom(buf[..], usa, check, i, Slots(b)) == Fix(b)
    {
      var end := i * 512 - 2;
      if end + 1 >= buf.Length {
        break;
      }
      ghost var c := buf[..];
      if Get16(buf[..], end) != check {
        return false;
      }
      buf[end], buf[end + 1] := buf[usa + 2 * i], buf[usa + 2 * i + 1];
      assert buf[..] == WordCopied(c, EndOf(i), usa + 2 * i);
      i := i + 1;
    }
    return true;
  }

  // ---- Attributes -----------------------------------------------------------------------

  predicate AttrHere(b: seq<Byte>, off: nat) { off + 16 <= |b| && Get32(b, off) != ATTR_END && Get32(b, off + 4) != 0 }

  /** Lengths of the attributes do not wrap the 32-bit offset. */
  predicate AttrsOk(b: seq<Byte>, off: nat)
    decreases |b| - off
  {
    AttrHere(b, off) ==> off + Get32(b, off + 4) < U32 && AttrsOk(b, off + Get32(b, off + 4))
  }

  /** Offsets of the attributes of a record, in order. */
  function Attrs(b: seq<Byte>, off: nat): seq<nat>
    decreases |b| - off
  {
    if AttrHere(b, off) then [off] + Attrs(b, off + Get32(b, off + 4)) else []
  }

  predicate HasKind(b: seq<Byte>, a: nat, kind: nat) { a + 16 <= |b| && Get32(b, a) == kind }

  /** The first attribute of the type. */
  function Find(b: seq<Byte>, off: nat, kind: nat): Option<nat>
    decreases |b| - off
  {
    if !AttrHere(b, off) then None
    else if Get32(b, off) == kind then Some(off)
    else Find(b, off + Get32(b, off + 4), kind)
  }

  /** Attribute i of the list is the first of its type. */
  predicate FirstAt(b: seq<Byte>, all: seq<nat>, i: nat, kind: nat)
  {
    i < |all| && HasKind(b, all[i], kind) && forall j :: 0 <= j < i ==> !HasKind(b, all[j], kind)
  }

  /** What is found is the first of its type in the list of attributes; nothing is
      found only if the list has none. */
  lemma {:induction false} FindIsFirst(b: seq<Byte>, off: nat, kind: nat)
    ensures Find(b, off, kind).Some? ==>
              exists i: nat :: FirstAt(b, Attrs(b, off), i, kind) && Attrs(b, off)[i] == Find(b, off, kind).value
    ensures Find(b, off, kind).None? ==> forall i :: 0 <= i < |Attrs(b, off)| ==> !HasKind(b, Attrs(b, off)[i], kind)
    decreases |b| - off
  {
    hide Get32;
    if AttrHere(b, off) {
      var all := Attrs(b, off);
      if Get32(b, off) == kind {
        assert FirstAt(b, all, 0, kind);
      } else {
        var next := off + Get32(b, off + 4);
        FindIsFirst(b, next, kind);
        var rest := Attrs(b, next);
        assert all == [off] + rest;
        if Find(b, next, kind).Some? {
          var i: nat :| FirstAt(b, rest, i, kind) && rest[i] == Find(b, next, kind).value;
          FirstShifts(b, off, rest, i, kind);
        }
      }
    }
  }

  lemma FirstShifts(b: seq<Byte>, off: nat, rest: seq<nat>, i: nat, kind: nat)
    requires FirstAt(b, rest, i, kind) && !HasKind(b, off, kind)
    ensures FirstAt(b, [off] + rest, i + 1, kind) && ([off] + rest)[i + 1] == rest[i]
  {
    hide HasKind;
    var all := [off] + rest;
    forall j | 0 <= j < i + 1 ensures !HasKind(b, all[j], kind) {
      if j > 0 { assert all[j] == rest[j - 1]; }
    }
  }

  /** ntfs_find_attr. */
  method FindAttr(b: seq<Byte>, kind: nat) returns (a: Option<nat>)
    requires |b| >= 22 && AttrsOk(b, Get16(b, 20))
    ensures a == Find(b, Get16(b, 20), kind)
  {
    hide Get16, Get32;
    var off := Get16(b, 20);
    while off + 16 <= |b|
      invariant AttrsOk(b, off) && Find(b, off, kind) == Find(b, Get16(b, 20), kind)
      decreases |b| - off
    {
      if Get32(b, off) == ATTR_END {
        break;
      }
      if Get32(b, off + 4) == 0 {
        break;
      }
      if Get32(b, off) == kind {
        return Some(off);
      }
      off := off + Get32(b, off + 4);
    }
    return None;
  }

  // ---- ntfs_read ------------------------------------------------------------------------

  predicate Resident(b: seq<Byte>, a: nat) requires a + 16 <= |b| { b[a + 8] == 0 }

  function ValueLength(b: seq<Byte>, a: nat): nat requires a + 24 <= |b| { Get32(b, a + 16) }

  function ValueStart(b: seq<Byte>, a: nat): nat requires a + 24 <= |b| { a + Get16(b, a + 20) }

  function RunsStart(b: seq<Byte>, a: nat): nat requires a + 34 <= |b| { a + Get16(b, a + 32) }

  /** The data attribute at a, or its run list, is inside the record, and the runs
      cover less than 2^64 bytes. */
  predicate DataFits(fs: Fs, b: seq<Byte>, a: nat)
  {
    && a + 16 <= |b|
    && if Resident(b, a) then a + 24 <= |b| && ValueStart(b, a) + ValueLength(b, a) <= |b|
       else a + 34 <= |b| && RunsFit(b, RunsStart(b, a)) && Span(ClusterSize(fs), Total(Decode(b, RunsStart(b, a), 0))) < U64
  }

  predicate RecordOk(fs: Fs, b: seq<Byte>)
  {
    && |b| >= 22 && AttrsOk(b, Get16(b, 20))
    && (Find(b, Get16(b, 20), ATTR_DATA).Some? ==> DataFits(fs, b, Find(b, Get16(b, 20), ATTR_DATA).value))
  }

  /** Every record the driver can load is well formed. */
  predicate FileOk(fs: Fs, rec: nat)
  {
    && (RawRecord(fs, rec).Some? ==> UsaFits(RawRecord(fs, rec).value))
    && (Record(fs, rec).Some? ==> RecordOk(fs, Record(fs, rec).value))
  }

  /** What a successful read leaves in the buffer, given the data attribute at a. */
  ghost predicate Delivered(fs: Fs, b: seq<Byte>, a: nat, offset: nat, size: nat, buffer: seq<Byte>, got: nat)
    requires FsOk(fs) && DataFits(fs, b, a)
  {
    ClusterPositive(fs);
    if Resident(b, a) then
      && got == Clip(ValueLength(b, a), offset, size) <= |buffer|
      && forall i :: 0 <= i < got ==> buffer[i] == b[ValueStart(b, a) + offset + i]
    else
      var runs := Decode(b, RunsStart(b, a), 0);
      && got <= Upto(ClusterSize(fs), Total(runs), offset, size)
      && Filled(Content(fs, runs), ClusterSize(fs), offset, buffer, got)
      && (got < Upto(ClusterSize(fs), Total(runs), offset, size) ==> !Readable(Content(fs, runs), ClusterSize(fs), offset + got))
  }

  /** The data attribute of the record, if there is one to read. */
  function DataAttr(fs: Fs, rec: nat): Option<nat>
    requires FileOk(fs, rec)
  {
    match Record(fs, rec)
    case None => None
    case Some(b) => Find(b, Get16(b, 20), ATTR_DATA)
  }

  /** ntfs_read on a node of record rec.  recMem and bufMem say whether the two
      scratch buffers can be allocated. */
  method Read(fs: Fs, isFile: bool, rec: nat, fileSize: nat, offset: nat, size: nat, buffer: array<Byte>, recMem: bool, bufMem: bool)
    returns (got: nat)
    requires FsOk(fs) && RecordSize(fs) && FileOk(fs, rec) && offset + size < U64 && Clip(fileSize, offset, size) <= buffer.Length
    modifies buffer
    ensures got <= Clip(fileSize, offset, size)
    ensures forall i :: got <= i < buffer.Length ==> buffer[i] == old(buffer[i])
    ensures (!isFile || !recMem || DataAttr(fs, rec).None?) ==> got == 0
    ensures isFile && recMem && bufMem && Clip(fileSize, offset, size) > 0 && DataAttr(fs, rec).Some? ==>
              Delivered(fs, Record(fs, rec).value, DataAttr(fs, rec).value, offset, Clip(fileSize, offset, size), buffer[..], got)
  {
    hide FsOk, Get16, AttrsOk, Find, Delivered, DataFits, Record, RawRecord, UsaFits;
    got := 0;
    if !isFile || offset >= fileSize {
      return;
    }
    var want := size;
    if offset + size > fileSize {
      want := fileSize - offset;
    }
    if want == 0 || !recMem {
      return;
    }
    var buf := new Byte[fs.recordSize];
    var ok := ReadRecord(fs, rec, buf);
    if !ok {
      return;
    }
    var attr := FindAttr(buf[..], ATTR_DATA);
    if attr.None? {
      return;
    }
    got := ReadData(fs, buf[..], attr.value, offset, want, buffer, bufMem);
  }

  /** The resident and the non-resident branch. */
  method ReadData(fs: Fs, b: seq<Byte>, a: nat, offset: nat, size: nat, buffer: array<Byte>, bufMem: bool) returns (got: nat)
    requires FsOk(fs) && DataFits(fs, b, a) && offset + size < U64 && size <= buffer.Length
    modifies buffer
    ensures got <= size && forall i :: got <= i < buffer.Length ==> buffer[i] == old(buffer[i])
    ensures bufMem ==> Delivered(fs, b, a, offset, size, buffer[..], got)
  {
    hide FsOk, Get16, Get32, Filled, Content, Span, Total, Decode, RunsFit, Upto, Readable, ClusterSize;
    ClusterPositive(fs);
    got := 0;
    if b[a + 8] == 0 {
      got := CopyValue(b, ValueStart(b, a), ValueLength(b, a), offset, size, buffer);
    } else {
      if !bufMem {
        return;
      }
      got := ReadRuns(fs, b, RunsStart(b, a), offset, size, buffer);
      UptoBound(ClusterSize(fs), Total(Decode(b, RunsStart(b, a), 0)), offset, size);
    }
  }

  /** The part of a resident value that was asked for. */
  method CopyValue(b: seq<Byte>, start: nat, length: nat, offset: nat, size: nat, buffer: array<Byte>) returns (got: nat)
    requires start + length <= |b| && size <= buffer.Length
    modifies buffer
    ensures got == Clip(length, offset, size) <= buffer.Length
    ensures forall i :: 0 <= i < got ==> buffer[i] == b[start + offset + i]
    ensures forall i :: got <= i < buffer.Length ==> buffer[i] == old(buffer[i])
  {
    if offset >= length {
      return 0;
    }
    got := length - offset;
    if got > size {
      got := size;
    }
    var from := start + offset;
    ghost var was := buffer[..];
    CopyInto(buffer, 0, b[from..from + got]);
    CopiedAt(was, b, from, got, buffer[..]);
  }

  lemma CopiedAt(was: seq<Byte>, b: seq<Byte>, from: nat, n: nat, r: seq<Byte>)
    requires from + n <= |b| && n <= |was| && r == Over(was, 0, b[from..from + n])
    ensures forall i :: 0 <= i < n ==> r[i] == b[from + i]
  {
    var d := b[from..from + n];
    forall i | 0 <= i < n ensures r[i] == b[from + i] {
      assert r[0 + i] == d[i];
    }
  }

  lemma UptoBound(cs: nat, n: nat, offset: nat, size: nat)
    ensures Upto(cs, n, offset, size) <= size
  {
  }
}
