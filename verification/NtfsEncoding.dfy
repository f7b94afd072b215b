/**
 Data runs as a writer lays them out, and the round trip through the decoder of
 fs/ntfs.c.
 */
module NtfsEncoding {
  import opened Arith
  import opened Bytes
  import opened Images
  import opened Ntfs

  lemma {:induction false} UnsignedSlice(b: seq<Byte>, o: nat, c: seq<Byte>, n: nat)
    requires o + n <= |b| && n <= |c| && forall i :: 0 <= i < n ==> b[o + i] == c[i]
    ensures Unsigned(b, o, n) == Unsigned(c, 0, n)
  {
    if n > 0 {
      UnsignedSlice(b, o, c, n - 1);
      assert b[o + (n - 1)] == c[n - 1];
    }
  }

  lemma {:induction false} LeUnsigned(x: nat, n: nat)
    requires x < Pow256(n)
    ensures Unsigned(Le(x, n), 0, n) == x
  {
    if n > 0 {
      var p := Pow256(n - 1);
      DivMod(x, p);
      LeUnsigned(x % p, n - 1);
      TopFits(x, n);
      var lo, hi := Le(x % p, n - 1), x / p;
      assert Le(x, n) == lo + [hi];
      UnsignedSlice(lo + [hi], 0, lo, n - 1);
      assert hi * p == p * hi;
    }
  }

  /** A field of n bytes at o of b that holds Le(x, n). */
  lemma FieldUnsigned(b: seq<Byte>, o: nat, x: nat, n: nat)
    requires o + n <= |b| && x < Pow256(n) && b[o..o + n] == Le(x, n)
    ensures Unsigned(b, o, n) == x
  {
    var c := Le(x, n);
    forall i | 0 <= i < n ensures b[o + i] == c[i] { assert b[o..o + n][i] == b[o + i]; }
    UnsignedSlice(b, o, c, n);
    LeUnsigned(x, n);
  }

  /** Half the range of n bytes. */
  function Half(n: nat): (h: int)
    requires n > 0
    ensures h > 0
  {
    128 * Pow256(n - 1)
  }

  /** d in n-byte two's complement. */
  function Wrap(d: int, n: nat): (u: nat)
    requires n > 0 && -Half(n) <= d < Half(n)
    ensures u < Pow256(n)
  {
    if d < 0 then d + Pow256(n) else d
  }

  lemma FieldSigned(b: seq<Byte>, o: nat, d: int, n: nat)
    requires n > 0 && o + n <= |b| && -Half(n) <= d < Half(n) && b[o..o + n] == Le(Wrap(d, n), n)
    ensures Signed(b, o, n) == d
  {
    hide Unsigned, Signed, Le, Pow256;
    FieldUnsigned(b, o, Wrap(d, n), n);
    UnsignedBound(b, o, n - 1);
    PowStep(n);
    TopOf(b, o, n);
    SignOf(Unsigned(b, o, n - 1), b[o + n - 1] as nat, Pow256(n - 1), d);
  }

  lemma TopOf(b: seq<Byte>, o: nat, n: nat)
    requires n > 0 && o + n <= |b|
    ensures Unsigned(b, o, n) == Unsigned(b, o, n - 1) + (b[o + n - 1] as nat) * Pow256(n - 1)
    ensures Signed(b, o, n) == Unsigned(b, o, n) - if (b[o + n - 1] as nat) >= 0x80 then Pow256(n) else 0
  {
  }

  /** The top bit is the sign. */
  lemma SignOf(low: nat, x: nat, p: nat, d: int)
    requires low < p && low + x * p == (if d < 0 then d + 256 * p else d) && -128 * p <= d < 128 * p
    ensures x >= 0x80 <==> d < 0
  {
    if x >= 0x80 {
      MulMonotone(p, 0x80, x);
    } else {
      MulMonotone(p, x, 0x7F);
    }
    assert x * p == p * x;
  }

  /** A run and the widths the writer chose for its length and its offset. */
  datatype Sized = Sized(run: Run, len: nat, off: nat)

  /** The widths are between one and eight bytes and hold the values; a sparse run has no
      offset and does not move the cluster number. */
  predicate Fits(x: Sized, lcn: int)
  {
    && 1 <= x.len <= 8 && x.run.clusters < Pow256(x.len)
    && if x.run.sparse then x.off == 0 && x.run.lcn == lcn
       else 1 <= x.off <= 8 && -Half(x.off) <= x.run.lcn - lcn < Half(x.off)
  }

  function EncodeRun(x: Sized, lcn: int): seq<Byte>
    requires Fits(x, lcn)
  {
    [x.off * 16 + x.len] + Le(x.run.clusters, x.len) + if x.run.sparse then [] else Le(Wrap(x.run.lcn - lcn, x.off), x.off)
  }

  predicate Encodable(xs: seq<Sized>, lcn: int)
  {
    xs != [] ==> Fits(xs[0], lcn) && Encodable(xs[1..], xs[0].run.lcn)
  }

  function Encode(xs: seq<Sized>, lcn: int): (b: seq<Byte>)
    requires Encodable(xs, lcn)
    ensures b != []
  {
    if xs == [] then [0] else EncodeRun(xs[0], lcn) + Encode(xs[1..], xs[0].run.lcn)
  }

  function RunsOf(xs: seq<Sized>): seq<Run> { if xs == [] then [] else [xs[0].run] + RunsOf(xs[1..]) }

  /** Decoding gives back every run list, whatever sufficient widths it was written in. */
  lemma DecodeEncode(xs: seq<Sized>)
    requires Encodable(xs, 0)
    ensures RunsFit(Encode(xs, 0), 0) && Decode(Encode(xs, 0), 0, 0) == RunsOf(xs)
  {
    var b := Encode(xs, 0);
    assert b[0..] == b + [];
    DecodeFrom(b, 0, xs, 0, []);
  }

  /** Also where other bytes follow. */
  lemma {:induction false} DecodeFrom(b: seq<Byte>, o: nat, xs: seq<Sized>, lcn: int, tail: seq<Byte>)
    requires o <= |b| && Encodable(xs, lcn) && b[o..] == Encode(xs, lcn) + tail
    ensures RunsFit(b, o) && Decode(b, o, lcn) == RunsOf(xs)
    decreases |xs|
  {
    hide EncodeRun, RunAt, LastRun, LenBytes, OffBytes, NextRun, Fits;
    if xs == [] {
      LastOne(b, o, tail);
    } else {
      var x, e, rest := xs[0], EncodeRun(xs[0], lcn), Encode(xs[1..], xs[0].run.lcn);
      assert e + rest + tail == e + (rest + tail);
      OneRun(b, o, x, lcn, rest + tail);
      RestAt(b, o, e, rest + tail);
      DecodeFrom(b, o + |e|, xs[1..], x.run.lcn, tail);
    }
  }

  lemma LastOne(b: seq<Byte>, o: nat, tail: seq<Byte>)
    requires o <= |b| && b[o..] == [0] + tail
    ensures o < |b| && LastRun(b, o)
  {
    assert b[o] == b[o..][0];
  }

  lemma RestAt(b: seq<Byte>, o: nat, e: seq<Byte>, rest: seq<Byte>)
    requires o <= |b| && b[o..] == e + rest
    ensures o + |e| <= |b| && b[o + |e|..] == rest
  {
    assert b[o + |e|..] == b[o..][|e|..];
  }

  /** A stretch of what was encoded, where it lies in b. */
  lemma Stretch(b: seq<Byte>, o: nat, e: seq<Byte>, rest: seq<Byte>, i: nat, j: nat)
    requires o <= |b| && b[o..] == e + rest && i <= j <= |e|
    ensures o + j <= |b| && b[o + i..o + j] == e[i..j]
  {
    var w := e + rest;
    assert |b| - o == |w|;
    forall t | i <= t < j ensures b[o + t] == e[t] {
      assert b[o..][t] == b[o + t] && w[t] == e[t];
    }
    assert |b[o + i..o + j]| == |e[i..j]|;
    assert forall t :: 0 <= t < j - i ==> b[o + i..o + j][t] == e[i..j][t];
  }

  lemma RunBytes(x: Sized, lcn: int)
    requires Fits(x, lcn)
    ensures var e := EncodeRun(x, lcn); var n := 1 + x.len;
            && |e| == n + x.off && e[0] == x.off * 16 + x.len && e[1..n] == Le(x.run.clusters, x.len)
            && (!x.run.sparse ==> e[n..n + x.off] == Le(Wrap(x.run.lcn - lcn, x.off), x.off))
  {
    hide Le, Pow256;
    var h: seq<Byte> := [x.off * 16 + x.len];
    var l := Le(x.run.clusters, x.len);
    var d: seq<Byte> := if x.run.sparse then [] else Le(Wrap(x.run.lcn - lcn, x.off), x.off);
    assert EncodeRun(x, lcn) == h + l + d;
    Parts(h, l, d);
  }

  lemma Parts(h: seq<Byte>, l: seq<Byte>, d: seq<Byte>)
    requires |h| == 1
    ensures (h + l + d)[0] == h[0] && (h + l + d)[1..1 + |l|] == l && (h + l + d)[1 + |l|..1 + |l| + |d|] == d
  {
  }

  lemma HeaderIs(b: seq<Byte>, o: nat, len: nat, off: nat)
    requires o < |b| && 1 <= len <= 8 && off <= 8 && b[o] == off * 16 + len
    ensures !LastRun(b, o) && LenBytes(b, o) == len && OffBytes(b, o) == off && NextRun(b, o) == o + 1 + len + off
  {
  }

  lemma OneRun(b: seq<Byte>, o: nat, x: Sized, lcn: int, rest: seq<Byte>)
    requires o <= |b| && Fits(x, lcn) && b[o..] == EncodeRun(x, lcn) + rest && rest != []
    ensures o < |b| && !LastRun(b, o) && LenBytes(b, o) <= 8 && OffBytes(b, o) <= 8
    ensures NextRun(b, o) == o + |EncodeRun(x, lcn)| < |b| && RunAt(b, o, lcn) == x.run
  {
    hide EncodeRun, Unsigned, Signed, Le, Pow256, Wrap, Half, LenBytes, OffBytes, NextRun, LastRun;
    var e, n := EncodeRun(x, lcn), 1 + x.len;
    RunBytes(x, lcn);
    assert b[o] == b[o..][0] == e[0];
    HeaderIs(b, o, x.len, x.off);
    Stretch(b, o, e, rest, 1, n);
    FieldUnsigned(b, o + 1, x.run.clusters, x.len);
    if !x.run.sparse {
      Stretch(b, o, e, rest, n, n + x.off);
      FieldSigned(b, o + n, x.run.lcn - lcn, x.off);
    }
  }
}
