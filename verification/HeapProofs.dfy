/** What kmalloc and kfree keep, and how one undoes the other. */
module HeapProofs {
  import opened Arith
  import opened Sizes
  import opened HeapSpec

  // ---- Lists of blocks ------------------------------------------------------------

  lemma {:induction false} SumConcat(a: seq<Block>, b: seq<Block>)
    ensures Sum(a + b) == Sum(a) + Sum(b)
  {
    if a == [] {
      assert a + b == b;
    } else {
      SumConcat(a[1..], b);
      assert (a + b)[1..] == a[1..] + b;
    }
  }

  lemma SumAt(bs: seq<Block>, i: nat)
    requires i < |bs|
    ensures Sum(bs) == Sum(bs[..i]) + bs[i].size + HEADER + Sum(bs[i + 1..])
  {
    assert bs == bs[..i] + bs[i..];
    SumConcat(bs[..i], bs[i..]);
    assert bs[i..][1..] == bs[i + 1..];
  }

  /** Blocks of an ordered list do not overlap, however far apart in the list. */
  lemma {:induction false} Disjoint(bs: seq<Block>, end: nat, i: nat, j: nat)
    requires Ordered(bs, end) && i < j < |bs|
    ensures Stop(bs[i]) <= bs[j].addr
    decreases j - i
  {
    if i + 1 < j { Disjoint(bs, end, i + 1, j); }
  }

  /** Every block lies between the first address and end. */
  lemma {:induction false} Within(bs: seq<Block>, end: nat, i: nat)
    requires Ordered(bs, end) && i < |bs|
    ensures bs[0].addr <= bs[i].addr && Stop(bs[i]) <= end
  {
    if i > 0 { Disjoint(bs, end, 0, i); }
    if i < |bs| - 1 { Disjoint(bs, end, i, |bs| - 1); }
  }

  ghost function Live(bs: seq<Block>): set<Block> { set b | b in bs && !b.free }

  // ---- Taking a block ---------------------------------------------------------------

  function Front(b: Block, size: nat): Block { Block(b.addr, size, false) }

  function Rest(b: Block, size: nat): Block
    requires b.size >= size + HEADER
  {
    Block(b.addr + HEADER + size, b.size - size - HEADER, true)
  }

  /** r is bs with block i split at size. */
  predicate SplitAt(bs: seq<Block>, r: seq<Block>, i: nat, size: nat)
  {
    && i < |bs| && bs[i].size >= size + HEADER && |r| == |bs| + 1
    && (forall k :: 0 <= k < i ==> r[k] == bs[k])
    && r[i] == Front(bs[i], size) && r[i + 1] == Rest(bs[i], size)
    && (forall k :: i + 2 <= k < |r| ==> r[k] == bs[k - 1])
  }

  lemma SplitShape(bs: seq<Block>, i: nat, size: nat)
    requires i < |bs| && Fits(bs[i], size) && bs[i].size >= size + HEADER + MIN_BLOCK
    ensures SplitAt(bs, Take(bs, i, size), i, size)
  {
  }

  /** Block i was free and is now in use with the size given; a free block holds the rest
      behind its header, if there is one. */
  predicate TakenAt(bs: seq<Block>, r: seq<Block>, i: nat, size: nat)
  {
    && i < |bs| && i < |r| && bs[i].free && size <= bs[i].size
    && r[..i] == bs[..i] && r[i] == Block(bs[i].addr, size, false)
    && if size == bs[i].size then r[i + 1..] == bs[i + 1..]
       else |r| == |bs| + 1 && r[i + 1].free && r[i + 1].addr == bs[i].addr + 24 + size
            && r[i + 1].size + 24 + size == bs[i].size && r[i + 2..] == bs[i + 1..]
  }

  /** The block is split exactly when 56 bytes or more are left over. */
  lemma TakeIs(bs: seq<Block>, i: nat, size: nat)
    requires i < |bs| && Fits(bs[i], size)
    ensures TakenAt(bs, Take(bs, i, size), i, if bs[i].size >= size + 56 then size else bs[i].size)
  {
  }

  lemma SplitOrdered(bs: seq<Block>, r: seq<Block>, i: nat, size: nat, end: nat)
    requires SplitAt(bs, r, i, size)
    ensures Ordered(bs, end) ==> Ordered(r, end)
    ensures bs[i].free && NoFreePair(bs) ==> NoFreePair(r)
  {
    forall k | 0 <= k < |r| - 1
      ensures Ordered(bs, end) ==> Stop(r[k]) <= r[k + 1].addr
      ensures bs[i].free && NoFreePair(bs) ==> !(r[k].free && r[k + 1].free)
    {
      if k < i {
        assert r[k] == bs[k] && r[k + 1].addr == bs[k + 1].addr;
      } else if k > i {
        assert Stop(r[k]) == Stop(bs[k - 1]) && r[k + 1] == bs[k];
        assert r[k].free ==> k == i + 1 || bs[k - 1].free;
      }
    }
    assert Stop(r[|r| - 1]) == Stop(bs[|bs| - 1]);
  }

  lemma SplitSum(bs: seq<Block>, i: nat, size: nat)
    requires i < |bs| && Fits(bs[i], size) && bs[i].size >= size + HEADER + MIN_BLOCK
    ensures Sum(Take(bs, i, size)) == Sum(bs)
  {
    var m := [Front(bs[i], size), Rest(bs[i], size)];
    SumAt(bs, i);
    assert Take(bs, i, size) == bs[..i] + m + bs[i + 1..];
    SumConcat(bs[..i] + m, bs[i + 1..]);
    SumConcat(bs[..i], m);
    assert m[1..] == [Rest(bs[i], size)] && m[1..][1..] == [];
    assert Sum(m[1..]) == Rest(bs[i], size).size + HEADER;
  }

  lemma TakeOk(bs: seq<Block>, i: nat, size: nat, end: nat)
    requires i < |bs| && Fits(bs[i], size) && Ordered(bs, end)
    ensures var r := Take(bs, i, size);
            && r != [] && r[0].addr == bs[0].addr && Ordered(r, end) && Sum(r) == Sum(bs)
            && (NoFreePair(bs) ==> NoFreePair(r))
  {
    var r := Take(bs, i, size);
    if bs[i].size >= size + HEADER + MIN_BLOCK {
      SplitShape(bs, i, size);
      SplitOrdered(bs, r, i, size, end);
      SplitSum(bs, i, size);
    } else {
      FlagOk(bs, i, false, end);
    }
  }

  /** Changing the free flag of one block moves nothing. */
  lemma FlagOk(bs: seq<Block>, i: nat, free: bool, end: nat)
    requires i < |bs|
    ensures var r := bs[i := bs[i].(free := free)];
            && Sum(r) == Sum(bs) && r[0].addr == bs[0].addr
            && (Ordered(bs, end) ==> Ordered(r, end))
            && (!free && NoFreePair(bs) ==> NoFreePair(r))
  {
    FlagSum(bs, i, free);
    hide Sum;
  }

  lemma FlagSum(bs: seq<Block>, i: nat, free: bool)
    requires i < |bs|
    ensures Sum(bs[i := bs[i].(free := free)]) == Sum(bs)
  {
    var r := bs[i := bs[i].(free := free)];
    SumAt(bs, i);
    SumAt(r, i);
    assert r[..i] == bs[..i] && r[i + 1..] == bs[i + 1..];
  }

  /** The caller gets a block of its own, at least as large as asked for and less than
      56 bytes larger; every block in use stays as it is. */
  lemma TakeLive(bs: seq<Block>, i: nat, size: nat)
    requires i < |bs| && Fits(bs[i], size)
    ensures var r := Take(bs, i, size);
            && i < |r| && r[i].addr == bs[i].addr && size <= r[i].size < size + 56 && !r[i].free
            && Live(r) == Live(bs) + {r[i]}
  {
    var b := bs[i];
    var r := Take(bs, i, size);
    if b.size >= size + HEADER + MIN_BLOCK {
      SplitShape(bs, i, size);
      forall x | x in Live(bs) ensures x in Live(r) {
        var k :| 0 <= k < |bs| && bs[k] == x;
        assert r[if k < i then k else k + 1] == x;
      }
    } else {
      forall x | x in Live(bs) ensures x in Live(r) {
        var k :| 0 <= k < |bs| && bs[k] == x;
        assert r[k] == x;
      }
    }
  }

  /** The block handed out was not in use. */
  lemma TakeNew(bs: seq<Block>, i: nat, size: nat, end: nat)
    requires i < |bs| && Fits(bs[i], size) && Ordered(bs, end)
    ensures i < |Take(bs, i, size)| && Take(bs, i, size)[i] !in Live(bs)
  {
    var b := Take(bs, i, size)[i];
    if b in Live(bs) {
      var k :| 0 <= k < |bs| && bs[k] == b;
      assert k != i;
      if i < k { Disjoint(bs, end, i, k); } else { Disjoint(bs, end, k, i); }
      assert false;
    }
  }

  /** Bytes in free blocks, with their headers. */
  function FreeSum(bs: seq<Block>): nat
  {
    if bs == [] then 0 else (if bs[0].free then bs[0].size + 24 else 0) + FreeSum(bs[1..])
  }

  lemma {:induction false} FreeConcat(a: seq<Block>, b: seq<Block>)
    ensures FreeSum(a + b) == FreeSum(a) + FreeSum(b)
    decreases |a|
  {
    if a == [] {
      assert a + b == b;
    } else {
      assert (a + b)[1..] == a[1..] + b;
      FreeConcat(a[1..], b);
    }
  }

  lemma FreeAt(bs: seq<Block>, i: nat)
    requires i < |bs|
    ensures FreeSum(bs) == FreeSum(bs[..i]) + (if bs[i].free then bs[i].size + 24 else 0) + FreeSum(bs[i + 1..])
  {
    assert bs == bs[..i] + bs[i..] && bs[i..][1..] == bs[i + 1..];
    FreeConcat(bs[..i], bs[i..]);
  }

  /** Taking a block uses up the size and a header, and at most 55 bytes more. */
  lemma TakeFree(bs: seq<Block>, i: nat, size: nat)
    requires i < |bs| && Fits(bs[i], size)
    ensures FreeSum(Take(bs, i, size)) + size + 24 <= FreeSum(bs) <= FreeSum(Take(bs, i, size)) + size + 79
  {
    var r := Take(bs, i, size);
    FreeAt(bs, i);
    FreeAt(r, i);
    assert r[..i] == bs[..i];
    if bs[i].size >= size + HEADER + MIN_BLOCK {
      SplitShape(bs, i, size);
      FreeAt(r[i + 1..], 0);
      assert r[i + 1..][..0] == [] && r[i + 1..][1..] == bs[i + 1..];
    } else {
      assert r[i + 1..] == bs[i + 1..];
    }
  }

  /** kmalloc(n) served without growing the heap: the same for the aligned size. */
  lemma KmallocUses(h: Heap, n: nat)
    requires 0 < n < U64 && !Grows(h, n)
    ensures Kmalloc(h, n).1 != 0
    ensures var before, after := FreeSum(h.blocks), FreeSum(Kmalloc(h, n).0.blocks);
            after + Align16(n) + 24 <= before <= after + Align16(n) + 79
  {
    TakeFree(h.blocks, FirstFit(h.blocks, Align16(n)), Align16(n));
  }

  // ---- Coalescing -------------------------------------------------------------------

  function Merged(bs: seq<Block>): seq<Block>
    requires |bs| >= 2
  {
    [Block(bs[0].addr, bs[0].size + HEADER + bs[1].size, true)] + bs[2..]
  }

  /** Merging two neighbours, touching or not, keeps order, range and total. */
  lemma MergedOk(bs: seq<Block>, end: nat)
    requires |bs| >= 2 && Ordered(bs, end)
    ensures Ordered(Merged(bs), end) && Sum(Merged(bs)) == Sum(bs) && Merged(bs)[0].addr == bs[0].addr
  {
    var m := Merged(bs);
    assert m[1..] == bs[2..] == bs[1..][1..];
    assert forall k :: 1 <= k < |m| ==> m[k] == bs[k + 1];
  }

  /** A block in front of an ordered list. */
  lemma ConsOk(b: Block, r: seq<Block>, end: nat)
    requires r != [] && Ordered(r, end) && Stop(b) <= r[0].addr
    ensures Ordered([b] + r, end)
  {
    var l := [b] + r;
    assert forall k :: 1 <= k < |l| ==> l[k] == r[k - 1];
  }

  lemma {:induction false} CoalesceOk(bs: seq<Block>, end: nat)
    requires Ordered(bs, end) && bs != []
    ensures Coalesce(bs) != [] && Coalesce(bs)[0].addr == bs[0].addr && Ordered(Coalesce(bs), end)
    decreases |bs|
  {
    if |bs| >= 2 {
      if bs[0].free && bs[1].free {
        MergedOk(bs, end);
        CoalesceOk(Merged(bs), end);
      } else {
        CoalesceOk(bs[1..], end);
        ConsOk(bs[0], Coalesce(bs[1..]), end);
      }
    }
  }

  lemma {:induction false} CoalesceSum(bs: seq<Block>)
    ensures Sum(Coalesce(bs)) == Sum(bs)
    decreases |bs|
  {
    if |bs| >= 2 {
      if bs[0].free && bs[1].free {
        assert Merged(bs)[1..] == bs[2..] == bs[1..][1..];
        CoalesceSum(Merged(bs));
      } else {
        CoalesceSum(bs[1..]);
        assert Coalesce(bs)[1..] == Coalesce(bs[1..]);
      }
    }
  }

  /** kfree always ends with no two free neighbours in the list. */
  lemma {:induction false} CoalesceNoPair(bs: seq<Block>)
    ensures NoFreePair(Coalesce(bs))
    ensures bs != [] ==> Coalesce(bs) != [] && Coalesce(bs)[0].free == bs[0].free
    decreases |bs|
  {
    if |bs| >= 2 {
      if bs[0].free && bs[1].free {
        CoalesceNoPair(Merged(bs));
      } else {
        CoalesceNoPair(bs[1..]);
        var r := Coalesce(bs[1..]);
        forall k | 0 <= k < |Coalesce(bs)| - 1 ensures !(Coalesce(bs)[k].free && Coalesce(bs)[k + 1].free) {
          if k > 0 { assert Coalesce(bs)[k] == r[k - 1] && Coalesce(bs)[k + 1] == r[k]; }
        }
      }
    }
  }

  /** Coalescing touches no block in use. */
  lemma {:induction false} CoalesceLive(bs: seq<Block>)
    ensures Live(Coalesce(bs)) == Live(bs)
    decreases |bs|
  {
    if |bs| >= 2 {
      if bs[0].free && bs[1].free {
        CoalesceLive(Merged(bs));
        assert bs == [bs[0], bs[1]] + bs[2..];
        assert forall b: Block :: !b.free ==> (b in Merged(bs) <==> b in bs);
      } else {
        CoalesceLive(bs[1..]);
        var r := Coalesce(bs[1..]);
        assert Coalesce(bs) == [bs[0]] + r && bs == [bs[0]] + bs[1..];
        forall b: Block ensures b in Live(Coalesce(bs)) <==> b in Live(bs) {
          assert b in Live(r) <==> b in Live(bs[1..]);
        }
      }
    }
  }

  lemma {:induction false} CoalesceIdentity(bs: seq<Block>)
    requires NoFreePair(bs)
    ensures Coalesce(bs) == bs
    decreases |bs|
  {
    if |bs| >= 2 {
      assert !(bs[0].free && bs[1].free);
      CoalesceIdentity(bs[1..]);
    }
  }

  /** A settled prefix that ends in a block in use is left alone. */
  lemma {:induction false} CoalescePrefix(a: seq<Block>, b: seq<Block>)
    requires NoFreePair(a) && (a != [] ==> !a[|a| - 1].free)
    ensures Coalesce(a + b) == a + Coalesce(b)
    decreases |a|
  {
    if a == [] {
      assert a + b == b && a + Coalesce(b) == Coalesce(b);
    } else if |a + b| < 2 {
      assert b == [];
    } else {
      assert (a + b)[1..] == a[1..] + b;
      assert |a| >= 2 ==> !(a[0].free && a[1].free);
      CoalescePrefix(a[1..], b);
      assert a + Coalesce(b) == [a[0]] + (a[1..] + Coalesce(b));
    }
  }

  // ---- Undoing an allocation ---------------------------------------------------------

  lemma SplitFreeRestores(bs: seq<Block>, i: nat, size: nat)
    requires NoFreePair(bs) && i < |bs| && Fits(bs[i], size) && bs[i].size >= size + HEADER + MIN_BLOCK
    ensures var r := Take(bs, i, size); i < |r| && Coalesce(r[i := r[i].(free := true)]) == bs
  {
    hide Coalesce, Take;
    var p := [Front(bs[i], size).(free := true), Rest(bs[i], size)] + bs[i + 1..];
    FlaggedSplit(bs, i, size);
    assert i > 0 ==> !bs[i - 1].free;
    CoalescePrefix(bs[..i], p);
    PairMerges(bs, i, size, p);
    assert bs == bs[..i] + bs[i..];
  }

  lemma FlaggedSplit(bs: seq<Block>, i: nat, size: nat)
    requires i < |bs| && Fits(bs[i], size) && bs[i].size >= size + HEADER + MIN_BLOCK
    ensures var r := Take(bs, i, size);
            && i < |r|
            && r[i := r[i].(free := true)] == bs[..i] + ([Front(bs[i], size).(free := true), Rest(bs[i], size)] + bs[i + 1..])
  {
    SplitShape(bs, i, size);
  }

  lemma PairMerges(bs: seq<Block>, i: nat, size: nat, p: seq<Block>)
    requires NoFreePair(bs) && i < |bs| && bs[i].free && bs[i].size >= size + HEADER
    requires p == [Front(bs[i], size).(free := true), Rest(bs[i], size)] + bs[i + 1..]
    ensures Coalesce(p) == bs[i..]
  {
    assert Merged(p) == bs[i..];
    CoalesceIdentity(bs[i..]);
  }

  /** From a settled list, kmalloc served without growing and kfree of its result
      give back exactly the list. */
  lemma MallocFreeRestores(h: Heap, n: nat)
    requires NoFreePair(h.blocks) && n > 0 && FirstFit(h.blocks, Align16(n)) < |h.blocks|
    ensures var (h1, p) := Kmalloc(h, n); var i := FirstFit(h.blocks, Align16(n));
            && i < |h1.blocks| && h1.blocks[i].addr + HEADER == p
            && Kfree(h1, i) == h
  {
    var size := Align16(n);
    var i := FirstFit(h.blocks, size);
    TakeLive(h.blocks, i, size);
    if h.blocks[i].size >= size + HEADER + MIN_BLOCK {
      SplitFreeRestores(h.blocks, i, size);
    } else {
      assert Take(h.blocks, i, size)[i := h.blocks[i]] == h.blocks;
      CoalesceIdentity(h.blocks);
    }
  }

  // ---- Growing ------------------------------------------------------------------------

  lemma GrownOk(h: Heap, pages: nat)
    requires HeapInv(h) && pages > 0 && GrowPages(h, pages).ok && h.end + pages * PAGE <= U64
    ensures HeapInv(Grown(h, pages)) && Live(Grown(h, pages).blocks) == Live(h.blocks)
    ensures |h.blocks| <= |Grown(h, pages).blocks| && Grown(h, pages).blocks[..|h.blocks|] == h.blocks
  {
    hide Ordered, Sum, Live, PageAligned, GrowPages;
    var b := Block(h.end, pages * PAGE - HEADER, true);
    AppendOrdered(h.blocks, h.end, b);
    AppendSum(h.blocks, b);
    AppendLive(h.blocks, b);
    AlignedOn(h.end, pages);
  }

  lemma AlignedOn(a: nat, n: nat)
    requires PageAligned(a)
    ensures PageAligned(a + n * PAGE)
  {
    var q := a / PAGE;
    assert a == q * PAGE;
    DivModUnique(a + n * PAGE, PAGE, q + n, 0);
  }

  lemma NextEnd(h: Heap)
    requires h.pool.frames > 0
    ensures MapNext(h).end == h.end + PAGE
  {
  }

  lemma {:induction false} GrowAligned(h: Heap, n: nat)
    requires PageAligned(h.end)
    ensures PageAligned(GrowPages(h, n).heap.end)
    decreases n
  {
    hide PageAligned, MapNext;
    if n > 0 && h.pool.frames > 0 {
      NextEnd(h);
      AlignedOn(h.end, 1);
      GrowAligned(MapNext(h), n - 1);
    }
  }

  lemma AppendOrdered(bs: seq<Block>, end: nat, b: Block)
    requires Ordered(bs, end) && b.addr == end
    ensures Ordered(bs + [b], Stop(b))
  {
    var r := bs + [b];
    assert forall k :: 0 <= k < |bs| ==> r[k] == bs[k];
  }

  lemma AppendSum(bs: seq<Block>, b: Block)
    ensures Sum(bs + [b]) == Sum(bs) + b.size + HEADER
  {
    SumConcat(bs, [b]);
    assert [b][1..] == [];
  }

  lemma AppendLive(bs: seq<Block>, b: Block)
    requires b.free
    ensures Live(bs + [b]) == Live(bs)
  {
    assert forall x :: x in bs + [b] <==> x in bs || x == b;
  }

  /** The retry after growing succeeds exactly when the page count did not wrap. */
  lemma RetryFits(h: Heap, size: nat)
    requires size < U64 && FirstFit(h.blocks, size) == |h.blocks| && GrowPages(h, PagesFor(size)).ok
    ensures FirstFit(Grown(h, PagesFor(size)).blocks, size) < |h.blocks| + 1 <==> size + HEADER + 4095 < U64
  {
    hide GrowPages, PagesFor;
    var pages := PagesFor(size);
    var r := Grown(h, pages).blocks;
    var b := r[|h.blocks|];
    assert b == Block(h.end, pages * PAGE - HEADER, true);
    forall k | 0 <= k < |h.blocks| ensures !Fits(r[k], size) {
      assert r[k] == h.blocks[k];
    }
    assert FirstFit(r, size) < |r| <==> b.size >= size;
    PagesEnough(size);
  }

  lemma PagesEnough(size: nat)
    requires size < U64
    ensures PagesFor(size) * PAGE - HEADER >= size <==> size + HEADER + 4095 < U64
  {
    if size + HEADER + 4095 < U64 {
    } else if size + HEADER < U64 {
      assert (size + HEADER) % U64 == size + HEADER;
    } else {
      assert (size + HEADER) % U64 == size + HEADER - U64;
    }
  }

  /** kmalloc asks for four pages, or for as many as a header and the size need. */
  lemma PagesLeast(size: nat)
    requires size + 24 + 4095 < U64
    ensures var n := PagesFor(size); n * 4096 >= size + 24 && n >= 4 && (n > 4 ==> (n - 1) * 4096 < size + 24)
  {
  }

  lemma AlignIdempotent(n: nat)
    requires n < U64
    ensures Align16(Align16(n)) == Align16(n)
  {
    AlignCovers(n);
    var a := Align16(n);
    assert a + 15 < U64;
    assert (a + 15) % U64 == a + 15;
  }

  /** Without wrap-around kmalloc calls itself at most once more. */
  lemma KmallocTwoLevels(h: Heap, n: nat)
    requires 0 < n && n + 15 < U64
    requires var size := Align16(n);
             size + HEADER + 4095 < U64 && FirstFit(h.blocks, size) == |h.blocks| && GrowPages(h, PagesFor(size)).ok
    ensures var size := Align16(n); var g := Grown(h, PagesFor(size)); var i := FirstFit(g.blocks, size);
            && i < |g.blocks|
            && Kmalloc(h, n) == (g.(blocks := Take(g.blocks, i, size)), g.blocks[i].addr + HEADER)
  {
    hide GrowPages, PagesFor, Align16;
    AlignCovers(n);
    AlignIdempotent(n);
    RetryFits(h, Align16(n));
  }

  // ---- The invariant --------------------------------------------------------------------

  /** kmalloc keeps the heap consistent whatever happens; the blocks in use stay,
      and the result, if any, is one more of them. */
  lemma {:induction false} KmallocOk(h: Heap, n: nat)
    requires HeapInv(h) && Room(h, n) && n < U64
    ensures var (h', p) := Kmalloc(h, n);
            && HeapInv(h')
            && (p == 0 ==> |h.blocks| <= |h'.blocks| && h'.blocks[..|h.blocks|] == h.blocks && Live(h'.blocks) == Live(h.blocks))
            && h.end <= h'.end
            && (p != 0 ==> exists b :: Gained(h, h', b, p, Align16(n)))
    decreases h.pool.frames
  {
    hide Ordered, Sum, Live, Take, GrowPages, PagesFor, Align16, Gained, PageAligned;
    if n > 0 {
      var size := Align16(n);
      AlignCovers(n);
      AlignIdempotent(n);
      var i := FirstFit(h.blocks, size);
      var (h', p) := Kmalloc(h, n);
      if i < |h.blocks| {
        TakenInv(h, i, size);
        assert Gained(h, h', h'.blocks[i], p, size);
      } else if !GrowPages(h, PagesFor(size)).ok {
        FailedInv(h, PagesFor(size));
      } else {
        var g := Grown(h, PagesFor(size));
        GrownOk(h, PagesFor(size));
        KmallocOk(g, size);
        KmallocRetried(h, g, h', p, size);
      }
    }
  }

  lemma TakenInv(h: Heap, i: nat, size: nat)
    requires HeapInv(h) && i < |h.blocks| && Fits(h.blocks[i], size)
    ensures var h' := h.(blocks := Take(h.blocks, i, size));
            && HeapInv(h') && i < |h'.blocks| && Gained(h, h', h'.blocks[i], h.blocks[i].addr + HEADER, size)
  {
    TakeOk(h.blocks, i, size, h.end);
    TakeLive(h.blocks, i, size);
    TakeNew(h.blocks, i, size, h.end);
  }

  /** A growth that failed leaves a longer range and the same blocks. */
  lemma FailedInv(h: Heap, n: nat)
    requires HeapInv(h) && !GrowPages(h, n).ok && GrowPages(h, n).heap.end <= U64
    ensures HeapInv(GrowPages(h, n).heap)
  {
    GrowAligned(h, n);
    hide PageAligned, Sum;
    assert Ordered(h.blocks, GrowPages(h, n).heap.end);
  }

  lemma KmallocRetried(h: Heap, g: Heap, h': Heap, p: nat, size: nat)
    requires |h.blocks| <= |g.blocks| && g.blocks[..|h.blocks|] == h.blocks && Live(g.blocks) == Live(h.blocks)
    requires p == 0 ==> |g.blocks| <= |h'.blocks| && h'.blocks[..|g.blocks|] == g.blocks && Live(h'.blocks) == Live(g.blocks)
    requires p != 0 ==> exists b :: Gained(g, h', b, p, size)
    ensures p == 0 ==> |h.blocks| <= |h'.blocks| && h'.blocks[..|h.blocks|] == h.blocks && Live(h'.blocks) == Live(h.blocks)
    ensures p != 0 ==> exists b :: Gained(h, h', b, p, size)
  {
    if p != 0 {
      var b :| Gained(g, h', b, p, size);
      assert Gained(h, h', b, p, size);
    } else {
      assert h'.blocks[..|h.blocks|] == h'.blocks[..|g.blocks|][..|h.blocks|];
    }
  }

  /** b is the block behind pointer p: new among the blocks in use, large enough, and with
      less than 56 bytes that nobody asked for. */
  ghost predicate Gained(h: Heap, h': Heap, b: Block, p: nat, size: nat)
  {
    && b in h'.blocks && !b.free && b.addr + 24 == p && size <= b.size < size + 56
    && Live(h'.blocks) == Live(h.blocks) + {b} && b !in Live(h.blocks)
  }

  lemma FreeOk(h: Heap, i: nat)
    requires HeapInv(h) && i < |h.blocks|
    ensures var h' := Kfree(h, i);
            && HeapInv(h') && NoFreePair(h'.blocks)
            && Live(h'.blocks) == Live(h.blocks) - {h.blocks[i]}
  {
    var f := h.blocks[i := h.blocks[i].(free := true)];
    FlagOk(h.blocks, i, true, h.end);
    CoalesceOk(f, h.end);
    CoalesceSum(f);
    CoalesceNoPair(f);
    CoalesceLive(f);
    FreedLive(h.blocks, h.end, i);
  }

  lemma FreedLive(bs: seq<Block>, end: nat, i: nat)
    requires Ordered(bs, end) && i < |bs|
    ensures Live(bs[i := bs[i].(free := true)]) == Live(bs) - {bs[i]}
  {
    var f := bs[i := bs[i].(free := true)];
    forall x | x in Live(bs) - {bs[i]} ensures x in Live(f) {
      var k :| 0 <= k < |bs| && bs[k] == x;
      assert f[k] == x;
    }
    forall x | x in Live(f) ensures x in Live(bs) - {bs[i]} {
      var k :| 0 <= k < |f| && f[k] == x;
      assert k != i && bs[k] == x;
      if i < k { Disjoint(bs, end, i, k); } else { Disjoint(bs, end, k, i); }
    }
  }

  /** The aligned size covers the request exactly when aligning did not wrap. */
  lemma AlignCovers(n: nat)
    requires n < U64
    ensures Align16(n) >= n <==> n + 15 < U64 || n == 0
    ensures Align16(n) % 16 == 0 && Align16(n) < U64 && Align16(n) < n + 16
  {
    if n + 15 >= U64 {
      assert (n + 15) % U64 == n + 15 - U64;
    }
  }
}
