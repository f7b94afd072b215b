/**
 Bytes as a writer lays them out: little-endian fields, a disk image behind the sector
 reads, and the blocks of a file in it.
 */
module Images {
  import opened Arith
  import opened Options
  import opened Bytes
  import opened FileBlocks

  // ---- Fields ------------------------------------------------------------------------------

  /** x in n bytes, least significant first. */
  function Le(x: nat, n: nat): (b: seq<Byte>)
    requires x < Pow256(n)
    ensures |b| == n
    decreases n
  {
    if n == 0 then []
    else
      DivMod(x, Pow256(n - 1));
      TopFits(x, n);
      Le(x % Pow256(n - 1), n - 1) + [x / Pow256(n - 1)]
  }

  lemma TopFits(x: nat, n: nat)
    requires 0 < n && x < Pow256(n)
    ensures x / Pow256(n - 1) < 256
  {
    var p := Pow256(n - 1);
    DivMod(x, p);
    if x / p >= 256 { MulMonotone(p, 256, x / p); assert false; }
  }

  /** The bytes w lie at o. */
  predicate Lies(b: seq<Byte>, o: nat, w: seq<Byte>) { o + |w| <= |b| && b[o..o + |w|] == w }

  lemma LiesIs(b: seq<Byte>, o: nat, w: seq<Byte>)
    requires Lies(b, o, w)
    ensures o + |w| <= |b| && b[o..o + |w|] == w
  {
  }

  lemma LiesAt(b: seq<Byte>, o: nat, w: seq<Byte>, i: nat)
    requires Lies(b, o, w) && i < |w|
    ensures o + |w| <= |b| && b[o + i] == w[i]
  {
    assert b[o..o + |w|][i] == b[o + i];
  }

  lemma LiesParts(b: seq<Byte>, o: nat, a: seq<Byte>, c: seq<Byte>)
    requires Lies(b, o, a + c)
    ensures Lies(b, o, a) && Lies(b, o + |a|, c)
  {
    var w := b[o..o + |a + c|];
    assert w[..|a|] == a && w[|a|..] == c;
    assert b[o..o + |a|] == w[..|a|] && b[o + |a|..o + |a| + |c|] == w[|a|..];
  }

  /** A field of n bytes at o holds x. */
  predicate Field(b: seq<Byte>, o: nat, n: nat, x: nat) { x < Pow256(n) && Lies(b, o, Le(x, n)) }

  lemma Pows()
    ensures Pow256(1) == 256 && Pow256(2) == U16 && Pow256(4) == U32
  {
    assert Pow256(1) == 256;
    assert Pow256(2) == 256 * Pow256(1);
  }

  lemma {:induction false} PowSum(m: nat, n: nat)
    ensures Pow256(m + n) == Pow256(m) * Pow256(n)
  {
    if n > 0 {
      PowSum(m, n - 1);
      MulAssoc(Pow256(m), 256, Pow256(n - 1));
    }
  }

  /** Taking x modulo a b leaves its last digit in base a, and cuts the rest at b. */
  lemma TwoDigits(x: nat, a: nat, b: nat)
    requires a > 0 && b > 0
    ensures a * b > 0 && x % (a * b) % a == x % a && x % (a * b) / a == x / a % b && x / (a * b) == x / a / b
  {
    var q, r := x / a, x % a;
    var s, t := q / b, q % b;
    DivMod(x, a);
    DivMod(q, b);
    MulDistributes(a, b * s, t);
    MulAssoc(a, b, s);
    MulMonotone(a, t, b - 1);
    MulDistributes(a, b - 1, 1);
    MulAtLeast(a, b);
    DivModUnique(x, a * b, s, a * t + r);
    DivModUnique(a * t + r, a, t, r);
  }

  /** The low m bytes of a field and the others. */
  lemma {:induction false} LeSplit(x: nat, m: nat, n: nat)
    requires x < Pow256(m + n)
    ensures x % Pow256(m) < Pow256(m) && x / Pow256(m) < Pow256(n) && Le(x, m + n) == Le(x % Pow256(m), m) + Le(x / Pow256(m), n)
    decreases n
  {
    hide Le, Pow256;
    var a := Pow256(m);
    DivMod(x, a);
    PowSum(m, n);
    if x / a >= Pow256(n) { MulMonotone(a, Pow256(n), x / a); assert false; }
    if n == 0 {
      LeNone(x / a);
      assert Le(x, m) + [] == Le(x, m);
    } else {
      var b := Pow256(n - 1);
      PowSum(m, n - 1);
      TwoDigits(x, a, b);
      var y := x % (a * b);
      LeStep(x, m + n);
      LeStep(x / a, n);
      LeSplit(y, m, n - 1);
      assert Le(x % a, m) + Le(x / a % b, n - 1) + [x / a / b] == Le(x % a, m) + (Le(x / a % b, n - 1) + [x / a / b]);
    }
  }

  lemma LeNone(x: nat)
    requires x < Pow256(0)
    ensures x == 0 && Le(x, 0) == []
  {
  }

  lemma LeStep(x: nat, n: nat)
    requires 0 < n && x < Pow256(n)
    ensures x % Pow256(n - 1) < Pow256(n - 1) && x / Pow256(n - 1) < 256
    ensures Le(x, n) == Le(x % Pow256(n - 1), n - 1) + [x / Pow256(n - 1)]
  {
    DivMod(x, Pow256(n - 1));
    TopFits(x, n);
  }

  lemma Le16(x: nat)
    requires x < U16
    ensures x < Pow256(2) && Le(x, 2) == [x % 256, x / 256]
  {
    Pows();
    assert Le(x % 256, 1) == [x % 256];
  }

  lemma Reads16(b: seq<Byte>, o: nat, x: nat)
    requires Field(b, o, 2, x)
    ensures Get16(b, o) == x
  {
    Pows();
    Le16(x);
    LiesAt(b, o, Le(x, 2), 0);
    LiesAt(b, o, Le(x, 2), 1);
  }

  lemma Reads32(b: seq<Byte>, o: nat, x: nat)
    requires Field(b, o, 4, x)
    ensures Get32(b, o) == x
  {
    Pows();
    LeSplit(x, 2, 2);
    hide Le, Get16, Pow256;
    DivMod(x, U16);
    LiesParts(b, o, Le(x % U16, 2), Le(x / U16, 2));
    Reads16(b, o, x % U16);
    Reads16(b, o + 2, x / U16);
  }

  /** A field of eight bytes is two of four. */
  lemma Reads64(b: seq<Byte>, o: nat, x: nat)
    requires Field(b, o, 8, x)
    ensures o + 8 <= |b| && Get32(b, o) + U32 * Get32(b, o + 4) == x
  {
    Pows();
    LeSplit(x, 4, 4);
    hide Le, Get32, Pow256;
    DivMod(x, U32);
    LiesParts(b, o, Le(x % U32, 4), Le(x / U32, 4));
    Reads32(b, o, x % U32);
    Reads32(b, o + 4, x / U32);
  }

  // ---- Disks -------------------------------------------------------------------------------

  /** The disk whose sectors are the bytes of img. */
  function DiskOf(img: seq<Byte>): Disk
  {
    (lba: nat, n: nat) => if 512 * (lba + n) <= |img| then Some(img[512 * lba..512 * (lba + n)]) else None
  }

  lemma DiskOfOk(img: seq<Byte>)
    ensures DiskOk(DiskOf(img))
  {
  }

  /** Sectors are read back as they were written. */
  lemma ReadsSectors(img: seq<Byte>, lba: nat, n: nat, w: seq<Byte>)
    requires Lies(img, 512 * lba, w) && |w| == 512 * n
    ensures DiskOf(img)(lba, n) == Some(w)
  {
  }

  // ---- Files -------------------------------------------------------------------------------

  /** Block k of the bytes of a file. */
  function BlockOf(data: seq<Byte>, bs: nat, k: nat): (w: seq<Byte>)
    requires bs * (k + 1) <= |data|
    ensures |w| == bs
  {
    MulDistributes(bs, k, 1);
    data[bs * k..bs * (k + 1)]
  }

  /** The first n blocks read as those of data. */
  ghost predicate Holds(d: Blocks, bs: nat, n: nat, data: seq<Byte>)
  {
    |data| == bs * n && forall k: nat :: k < n ==> bs * (k + 1) <= |data| && d(k) == Some(BlockOf(data, bs, k))
  }

  lemma BlockInside(bs: nat, k: nat, n: nat)
    requires k < n
    ensures bs * (k + 1) <= bs * n
  {
    MulMonotone(bs, k + 1, n);
  }

  lemma {:induction false} HeldBytes(d: Blocks, bs: nat, n: nat, data: seq<Byte>, i: nat)
    requires bs > 0 && Holds(d, bs, n, data) && i < |data|
    ensures Readable(d, bs, i) && FileByte(d, bs, i) == data[i]
  {
    OffWithin(bs, i);
    var k := BlockIx(bs, i);
    if k >= n { MulMonotone(bs, n, k); assert false; }
    assert d(k) == Some(BlockOf(data, bs, k));
    assert BlockOf(data, bs, k)[BlockOff(bs, i)] == data[i];
  }

  /** What was filled from such a file is a slice of data, and nothing below |data| is
      missing. */
  lemma FilledFromHeld(d: Blocks, bs: nat, n: nat, data: seq<Byte>, offset: nat, b: seq<Byte>, got: nat, want: nat)
    requires bs > 0 && Holds(d, bs, n, data) && Filled(d, bs, offset, b, got) && got <= want && offset + want <= |data|
    requires got < want ==> !Readable(d, bs, offset + got)
    ensures got == want <= |b| && b[..got] == data[offset..offset + got]
  {
    hide Readable, FileByte, Holds;
    if got < want { HeldBytes(d, bs, n, data, offset + got); }
    forall i | 0 <= i < got ensures b[i] == data[offset + i] {
      assert FilledAt(d, bs, offset, i, b[i]);
      HeldBytes(d, bs, n, data, offset + i);
    }
    assert forall i :: 0 <= i < got ==> b[..got][i] == data[offset..offset + got][i];
  }
}
