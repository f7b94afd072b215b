/**
 A file as a sequence of equally sized blocks, and what it means that a buffer
 holds a slice of it.  The three file systems share this view.
 */
module FileBlocks {
  import opened Arith
  import opened Options
  import opened Bytes

  /** The data of each block of a file; None if it cannot be read. */
  type Blocks = nat -> Option<seq<Byte>>

  function BlockIx(bs: nat, i: nat): nat requires bs > 0 { i / bs }

  function BlockOff(bs: nat, i: nat): nat requires bs > 0 { i % bs }

  predicate Readable(d: Blocks, bs: nat, i: nat)
    requires bs > 0
  {
    d(BlockIx(bs, i)).Some?
  }

  /** Byte i of the file. */
  function FileByte(d: Blocks, bs: nat, i: nat): Byte
    requires bs > 0
  {
    FromBlock(d(BlockIx(bs, i)), BlockOff(bs, i))
  }

  function FromBlock(b: Option<seq<Byte>>, i: nat): Byte { if b.Some? && i < |b.value| then b.value[i] else 0 }

  /** The first got bytes of b are those of the file from offset on. */
  ghost predicate Filled(d: Blocks, bs: nat, offset: nat, b: seq<Byte>, got: nat)
    requires bs > 0
  {
    (got <= |b| && forall i :: 0 <= i < got ==> FilledAt(d, bs, offset, i, b[i])) == true
  }

  predicate FilledAt(d: Blocks, bs: nat, offset: nat, i: nat, x: Byte)
    requires bs > 0
  {
    Readable(d, bs, offset + i) && x == FileByte(d, bs, offset + i)
  }

  lemma NoneFilled(d: Blocks, bs: nat, offset: nat, b: seq<Byte>)
    requires bs > 0
    ensures Filled(d, bs, offset, b, 0)
  {
  }

  /** Copying k bytes out of the block of the next byte goes on with the slice. */
  lemma FillStep(d: Blocks, bs: nat, offset: nat, b: seq<Byte>, got: nat, blk: seq<Byte>, o: nat, k: nat)
    requires bs > 0 && Filled(d, bs, offset, b, got) && got + k <= |b|
    requires d(BlockIx(bs, offset + got)) == Some(blk) && o == BlockOff(bs, offset + got)
    requires o + k <= |blk| == bs
    ensures Filled(d, bs, offset, Over(b, got, blk[o..o + k]), got + k)
  {
    hide BlockIx, BlockOff;
    var r := Over(b, got, blk[o..o + k]);
    forall i | 0 <= i < got + k ensures FilledAt(d, bs, offset, i, r[i]) {
      if i < got {
        assert r[i] == b[i];
      } else {
        assert r[got + (i - got)] == blk[o..o + k][i - got];
        SameBlock(offset + got, bs, i - got);
        assert offset + i == offset + got + (i - got);
      }
    }
  }

  lemma SameBlock(pos: nat, bs: nat, j: nat)
    requires bs > 0 && BlockOff(bs, pos) + j < bs
    ensures BlockIx(bs, pos + j) == BlockIx(bs, pos) && BlockOff(bs, pos + j) == BlockOff(bs, pos) + j
  {
    DivMod(pos, bs);
    DivModUnique(pos + j, bs, pos / bs, pos % bs + j);
  }

  lemma OffWithin(bs: nat, pos: nat)
    requires bs > 0
    ensures BlockOff(bs, pos) < bs && pos == bs * BlockIx(bs, pos) + BlockOff(bs, pos)
  {
    DivMod(pos, bs);
  }

  /** How much of a request lies before the end of the file. */
  function Clip(end: nat, offset: nat, size: nat): nat
  {
    if offset >= end then 0 else if offset + size > end then end - offset else size
  }

  // ---- The file as one sequence of bytes ---------------------------------------------------

  /** The first n blocks one after the other; zeros for one that cannot be read. */
  function FileBytes(d: Blocks, bs: nat, n: nat): seq<Byte>
  {
    if n == 0 then []
    else FileBytes(d, bs, n - 1) + if d(n - 1).Some? && |d(n - 1).value| == bs then d(n - 1).value else Zeros(bs)
  }

  /** Every block that can be read has the block size. */
  ghost predicate Sized(d: Blocks, bs: nat) { forall k: nat :: d(k).Some? ==> |d(k).value| == bs }

  lemma {:induction false} FileBytesSize(d: Blocks, bs: nat, n: nat)
    ensures |FileBytes(d, bs, n)| == bs * n
  {
    if n > 0 {
      FileBytesSize(d, bs, n - 1);
      MulDistributes(bs, n - 1, 1);
    }
  }

  lemma {:induction false} FileBytesAt(d: Blocks, bs: nat, n: nat, i: nat)
    requires bs > 0 && Sized(d, bs) && i < bs * n
    ensures |FileBytes(d, bs, n)| == bs * n && FileBytes(d, bs, n)[i] == FileByte(d, bs, i)
  {
    FileBytesSize(d, bs, n);
    FileBytesSize(d, bs, n - 1);
    MulDistributes(bs, n - 1, 1);
    if i < bs * (n - 1) {
      FileBytesAt(d, bs, n - 1, i);
    } else {
      DivModUnique(i, bs, n - 1, i - bs * (n - 1));
    }
  }

  lemma {:induction false} SameBytes(d: Blocks, e: Blocks, bs: nat, n: nat)
    requires forall k: nat :: k < n ==> d(k) == e(k)
    ensures FileBytes(d, bs, n) == FileBytes(e, bs, n)
  {
    if n > 0 { SameBytes(d, e, bs, n - 1); }
  }

  /** What was filled is a slice of these bytes. */
  lemma FilledIsSlice(d: Blocks, bs: nat, offset: nat, b: seq<Byte>, got: nat, n: nat)
    requires bs > 0 && Sized(d, bs) && Filled(d, bs, offset, b, got) && offset + got <= bs * n
    ensures got <= |b| && |FileBytes(d, bs, n)| == bs * n && b[..got] == FileBytes(d, bs, n)[offset..offset + got]
  {
    FileBytesSize(d, bs, n);
    var all := FileBytes(d, bs, n);
    hide FileBytes, FileByte, Sized, Readable;
    forall i | 0 <= i < got ensures b[i] == all[offset + i] {
      assert FilledAt(d, bs, offset, i, b[i]);
      FileBytesAt(d, bs, n, offset + i);
    }
    assert forall i :: 0 <= i < got ==> b[..got][i] == all[offset..offset + got][i];
  }
}
