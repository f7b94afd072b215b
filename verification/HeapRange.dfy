/**
 The range of the kernel heap: when the blocks tile it exactly, and when all of it
 is mapped.
 */
module HeapRange {
  import opened Sizes
  import opened TableFrames
  import opened HeapSpec
  import opened HeapProofs

  // ---- Tiling ------------------------------------------------------------------------------

  lemma {:induction false} OrderedSum(bs: seq<Block>, end: nat)
    requires Ordered(bs, end) && bs != []
    ensures bs[0].addr + Sum(bs) <= end && (bs[0].addr + Sum(bs) == end <==> Tiled(bs, end))
  {
    if |bs| == 1 {
      assert bs[1..] == [];
    } else {
      var r := bs[1..];
      assert forall k :: 0 <= k < |r| ==> r[k] == bs[k + 1];
      OrderedSum(r, end);
      assert Tiled(bs, end) <==> Tiled(r, end) && Stop(bs[0]) == r[0].addr by { TiledCons(bs, end); }
    }
  }

  lemma TiledCons(bs: seq<Block>, end: nat)
    requires |bs| >= 2
    ensures Tiled(bs, end) <==> Tiled(bs[1..], end) && Stop(bs[0]) == bs[1].addr
  {
    var r := bs[1..];
    assert forall k :: 0 <= k < |r| ==> r[k] == bs[k + 1];
    if Tiled(r, end) && Stop(bs[0]) == bs[1].addr {
      forall i | 0 <= i < |bs| - 1 ensures Stop(bs[i]) == bs[i + 1].addr {
        if i > 0 { assert Stop(r[i - 1]) == r[i - 1 + 1].addr; }
      }
    }
    if Tiled(bs, end) {
      forall i | 0 <= i < |r| - 1 ensures Stop(r[i]) == r[i + 1].addr {
        assert Stop(bs[i + 1]) == bs[i + 1 + 1].addr;
      }
    }
  }

  /** The blocks tile the range exactly when the range is as long as the total. */
  lemma TiledIsTotal(h: Heap)
    requires HeapInv(h)
    ensures h.end >= HEAP_START + h.total && (Tiled(h.blocks, h.end) <==> h.end == HEAP_START + h.total)
  {
    OrderedSum(h.blocks, h.end);
  }

  // ---- When heap_grow succeeds -----------------------------------------------------------

  /** The pages from heap_virt_end on. */
  function Ahead(h: Heap, n: nat): seq<nat> { seq<nat>(n, (i: nat) => h.end / PAGE + i) }

  lemma NextPage(h: Heap)
    requires h.pool.frames > 0 && PageAligned(h.end)
    ensures PageAligned(MapNext(h).end) && MapNext(h).end / PAGE == h.end / PAGE + 1
  {
    AlignedOn(h.end, 1);
  }

  lemma CostAhead(h: Heap, g: Heap, k: nat)
    requires g.end / PAGE == h.end / PAGE + 1 && g.pool.tables == h.pool.tables + NodesOf(h.end / PAGE, 3)
    ensures Cost(h.pool.tables, Ahead(h, k + 1)) == 1 + Needs(h.pool.tables, h.end / PAGE) + Cost(g.pool.tables, Ahead(g, k))
  {
    var a := Ahead(h, k + 1);
    assert a[0] == h.end / PAGE;
    assert a[1..] == Ahead(g, k);
  }

  /** The frames cover all pages before the last with their tables, and one is left for
      the last page. */
  predicate Affords(h: Heap, n: nat) { n == 0 || Cost(h.pool.tables, Ahead(h, n - 1)) < h.pool.frames }

  /** heap_grow(n) succeeds exactly then. */
  lemma {:induction false} GrowAffords(h: Heap, n: nat)
    requires PageAligned(h.end)
    ensures GrowPages(h, n).ok <==> Affords(h, n)
    decreases n
  {
    hide PageAligned, PageIn, Needs, NodesOf;
    if n > 0 && h.pool.frames > 0 {
      var page, g := h.end / PAGE, MapNext(h);
      NextPage(h);
      PageInIs(h.pool, page);
      GrowAffords(g, n - 1);
      if n == 1 {
        assert Ahead(h, 0) == [];
      } else if PageIn(h.pool, page).ok {
        CostAhead(h, g, n - 2);
      } else {
        assert Ahead(h, n - 1)[0] == page;
      }
    }
  }

  /** kmalloc returns a pointer exactly when some free block is large enough or the frames
      cover the growth. */
  lemma KmallocSucceeds(h: Heap, n: nat)
    requires PageAligned(h.end) && n + 15 + 24 + 4095 < U64
    ensures Kmalloc(h, n).1 != 0 <==>
              n > 0 && ((exists b :: b in h.blocks && b.free && b.size >= Align16(n)) || Affords(h, PagesFor(Align16(n))))
  {
    hide GrowPages, PagesFor, Align16, Affords, PageAligned;
    var size := Align16(n);
    AlignCovers(n);
    GrowAffords(h, PagesFor(size));
    var i := FirstFit(h.blocks, size);
    if i < |h.blocks| {
      assert h.blocks[i] in h.blocks;
    } else {
      forall b | b in h.blocks ensures !(b.free && b.size >= size) {
        var k :| 0 <= k < |h.blocks| && h.blocks[k] == b;
        assert !Fits(h.blocks[k], size);
      }
      if n > 0 && GrowPages(h, PagesFor(size)).ok { KmallocTwoLevels(h, n); }
    }
  }

  /** A growth inside kmalloc(n) runs out of frames, and not before its first page. */
  predicate PartFails(h: Heap, n: nat)
    requires PageAligned(h.end)
    decreases h.pool.frames
  {
    Grows(h, n) &&
    var pages := PagesFor(Align16(n));
    GrowAffords(h, pages);
    GrowAligned(h, pages);
    if Affords(h, pages) then PartFails(Grown(h, pages), Align16(n)) else h.pool.frames > 0
  }

  /** kmalloc changes the bytes lost between the blocks exactly by a part-failed growth. */
  lemma {:induction false} KmallocGap(h: Heap, n: nat)
    requires PageAligned(h.end)
    ensures var h' := Kmalloc(h, n).0;
            h'.end - h'.total >= h.end - h.total && (h'.end - h'.total == h.end - h.total <==> !PartFails(h, n))
    decreases h.pool.frames
  {
    hide Align16, PagesFor, FirstFit, GrowPages, PageAligned, Affords;
    if Grows(h, n) {
      var pages := PagesFor(Align16(n));
      GrowAffords(h, pages);
      GrowAligned(h, pages);
      if GrowPages(h, pages).ok { KmallocGap(Grown(h, pages), Align16(n)); }
    }
  }

  /** kmalloc keeps the blocks tiling the range if and only if no growth inside it
      failed after it had moved the end. */
  lemma KmallocTiled(h: Heap, n: nat)
    requires HeapInv(h) && Room(h, n) && n < U64 && Tiled(h.blocks, h.end)
    ensures PageAligned(h.end)
    ensures Tiled(Kmalloc(h, n).0.blocks, Kmalloc(h, n).0.end) <==> !PartFails(h, n)
  {
    assert PageAligned(h.end);
    hide Tiled, HeapInv, Kmalloc, PartFails, Room, PageAligned;
    KmallocOk(h, n);
    TiledIsTotal(h);
    TiledIsTotal(Kmalloc(h, n).0);
    KmallocGap(h, n);
  }

  // ---- Mapping -----------------------------------------------------------------------------

  /** heap_grow(n) moves heap_virt_end over a page that vmm_map_page could not map. */
  predicate Skips(h: Heap, n: nat)
    decreases n
  {
    n > 0 && h.pool.frames > 0 && (!PageIn(h.pool, h.end / PAGE).ok || Skips(MapNext(h), n - 1))
  }

  /** The frames cover the first k pages with their tables and the next page, but not
      all tables of that one. */
  predicate Between(h: Heap, n: nat, k: nat)
  {
    k < n && Cost(h.pool.tables, Ahead(h, k)) < h.pool.frames < Cost(h.pool.tables, Ahead(h, k + 1))
  }

  /** A page is skipped exactly when the frames run out between a page and its tables. */
  lemma {:induction false} SkipsIs(h: Heap, n: nat)
    requires PageAligned(h.end)
    ensures Skips(h, n) <==> exists k: nat :: Between(h, n, k)
    decreases n
  {
    hide PageAligned;
    if n > 0 && h.pool.frames > 0 {
      NextPage(h);
      FirstBetween(h, n);
      if PageIn(h.pool, h.end / PAGE).ok {
        SkipsIs(MapNext(h), n - 1);
        if Skips(h, n) {
          var k: nat :| Between(MapNext(h), n - 1, k);
          BetweenNext(h, n, k);
        }
        if k: nat :| Between(h, n, k) { BetweenNext(h, n, k - 1); }
      }
    }
  }

  lemma FirstBetween(h: Heap, n: nat)
    requires n > 0 && h.pool.frames > 0
    ensures Between(h, n, 0) <==> !PageIn(h.pool, h.end / PAGE).ok
  {
    var page := h.end / PAGE;
    PageInIs(h.pool, page);
    assert Ahead(h, 0) == [] && Ahead(h, 1) == [page] && [page][1..] == [];
    assert Cost(h.pool.tables, [page]) == 1 + Needs(h.pool.tables, page);
  }

  lemma BetweenNext(h: Heap, n: nat, k: nat)
    requires n > 0 && h.pool.frames > 0 && PageAligned(h.end) && PageIn(h.pool, h.end / PAGE).ok
    ensures Between(MapNext(h), n - 1, k) <==> Between(h, n, k + 1)
  {
    hide PageAligned;
    NextPage(h);
    PageInIs(h.pool, h.end / PAGE);
    CostAhead(h, MapNext(h), k);
    CostAhead(h, MapNext(h), k + 1);
  }

  /** Only pages of the range are mapped for the heap. */
  ghost predicate MappedBelow(h: Heap)
  {
    (h.end >= HEAP_START && forall page :: page in h.mapped ==> page < h.end / PAGE) == true
  }

  lemma MapsNext(h: Heap)
    requires h.pool.frames > 0 && PageAligned(h.end) && MappedBelow(h)
    ensures MappedBelow(MapNext(h)) && (AllMapped(MapNext(h)) <==> AllMapped(h) && PageIn(h.pool, h.end / PAGE).ok)
  {
    NextPage(h);
    var page, g := h.end / PAGE, MapNext(h);
    assert HEAP_START / PAGE <= page;
    if AllMapped(g) {
      assert page in g.mapped;
      forall q | HEAP_START / PAGE <= q < page ensures q in h.mapped { assert q in g.mapped; }
    }
  }

  /** heap_grow keeps the whole range mapped if and only if it skips no page. */
  lemma {:induction false} GrowMapped(h: Heap, n: nat)
    requires PageAligned(h.end) && MappedBelow(h)
    ensures MappedBelow(GrowPages(h, n).heap)
    ensures AllMapped(GrowPages(h, n).heap) <==> AllMapped(h) && !Skips(h, n)
    decreases n
  {
    hide PageAligned, AllMapped, MappedBelow, MapNext, PageIn;
    if n > 0 && h.pool.frames > 0 {
      NextPage(h);
      MapsNext(h);
      GrowMapped(MapNext(h), n - 1);
    }
  }

  /** Some growth inside kmalloc(n) skips a page. */
  predicate Misses(h: Heap, n: nat)
    decreases h.pool.frames
  {
    Grows(h, n) &&
    var pages := PagesFor(Align16(n));
    Skips(h, pages) || (GrowPages(h, pages).ok && Misses(Grown(h, pages), Align16(n)))
  }

  /** kmalloc keeps the whole range mapped if and only if no growth inside it skips a
      page. */
  lemma {:induction false} KmallocMapped(h: Heap, n: nat)
    requires PageAligned(h.end) && MappedBelow(h)
    ensures MappedBelow(Kmalloc(h, n).0) && (AllMapped(Kmalloc(h, n).0) <==> AllMapped(h) && !Misses(h, n))
    decreases h.pool.frames
  {
    hide Align16, PagesFor, FirstFit, GrowPages, Skips, PageAligned, Take;
    if Grows(h, n) {
      var pages := PagesFor(Align16(n));
      GrowMapped(h, pages);
      GrowAligned(h, pages);
      if GrowPages(h, pages).ok {
        GrownMapped(h, pages);
        KmallocMapped(Grown(h, pages), Align16(n));
      }
    } else {
      SameMapped(h, Kmalloc(h, n).0);
    }
  }

  lemma GrownMapped(h: Heap, pages: nat)
    requires pages > 0 && GrowPages(h, pages).ok
    ensures Grown(h, pages).end == GrowPages(h, pages).heap.end && Grown(h, pages).mapped == GrowPages(h, pages).heap.mapped
    ensures AllMapped(Grown(h, pages)) <==> AllMapped(GrowPages(h, pages).heap)
    ensures MappedBelow(Grown(h, pages)) <==> MappedBelow(GrowPages(h, pages).heap)
  {
  }

  lemma SameMapped(h: Heap, g: Heap)
    requires g.end == h.end && g.mapped == h.mapped
    ensures (AllMapped(g) <==> AllMapped(h)) && (MappedBelow(g) <==> MappedBelow(h))
  {
  }
}
