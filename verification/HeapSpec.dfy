/**
 The kernel heap of mm/heap.c as a list of blocks: what kmalloc and kfree do to
 it, and what both keep.  Addresses are byte addresses; a block is a 24-byte
 header followed by its data area.
 */
module HeapSpec {
  import opened Sizes
  import opened TableFrames

  const HEADER: nat := 24
  const MIN_BLOCK: nat := 32
  const HEAP_START: nat := 0xFFFF_FFFF_9000_0000

  datatype Block = Block(addr: nat, size: nat, free: bool)

  /** blocks in list order; heap_virt_end; heap_total_size; what the page allocator
      and the page tables have; the heap pages that are mapped. */
  datatype Heap = Heap(blocks: seq<Block>, end: nat, total: nat, pool: Pool, mapped: set<nat>)

  function Stop(b: Block): nat { b.addr + HEADER + b.size }

  /** (size + 15) & ~15 in 64 bits. */
  function Align16(n: nat): nat { (n + 15) % U64 / 16 * 16 }

  // ---- First fit -----------------------------------------------------------------

  predicate Fits(b: Block, size: nat) { b.free && b.size >= size }

  /** Index of the first block that fits, or the length of the list. */
  function FirstFit(bs: seq<Block>, size: nat): (i: nat)
    ensures i <= |bs|
    ensures i < |bs| ==> Fits(bs[i], size)
    ensures forall j :: 0 <= j < i ==> !Fits(bs[j], size)
  {
    if bs == [] || Fits(bs[0], size) then 0 else 1 + FirstFit(bs[1..], size)
  }

  /** Block i is taken, its tail split off when it is large enough. */
  function Take(bs: seq<Block>, i: nat, size: nat): seq<Block>
    requires i < |bs| && Fits(bs[i], size)
  {
    var b := bs[i];
    if b.size >= size + HEADER + MIN_BLOCK then
      bs[..i] + [Block(b.addr, size, false), Block(b.addr + HEADER + size, b.size - size - HEADER, true)] + bs[i + 1..]
    else
      bs[i := b.(free := false)]
  }

  /** Pages kmalloc asks for when nothing fits. */
  function PagesFor(size: nat): (n: nat)
    ensures n >= 4
  {
    var pages := ((size + HEADER) % U64 + 4095) % U64 / PAGE;
    if pages < 4 then 4 else pages
  }

  /** One round of heap_grow.  heap_virt_end moves on even when vmm_map_page found no
      frame for a table. */
  function MapNext(h: Heap): Heap
    requires h.pool.frames > 0
  {
    var w := PageIn(h.pool, h.end / PAGE);
    h.(end := h.end + PAGE, pool := w.pool, mapped := if w.ok then h.mapped + {h.end / PAGE} else h.mapped)
  }

  datatype Growth = Growth(heap: Heap, ok: bool)

  /** heap_grow. */
  function GrowPages(h: Heap, n: nat): (g: Growth)
    ensures g.heap.blocks == h.blocks && g.heap.total == h.total
    ensures g.ok ==> g.heap.end == h.end + n * PAGE && g.heap.pool.frames + n <= h.pool.frames
    ensures !g.ok ==> g.heap.pool.frames == 0 && h.end <= g.heap.end < h.end + n * PAGE
    ensures !g.ok ==> (g.heap == h <==> h.pool.frames == 0) && (h.pool.frames > 0 ==> g.heap.end > h.end)
    decreases n
  {
    if n == 0 then Growth(h, true)
    else if h.pool.frames == 0 then Growth(h, false)
    else
      PageInIs(h.pool, h.end / PAGE);
      GrowPages(MapNext(h), n - 1)
  }

  /** The new pages as one free block at the end of the list. */
  function Grown(h: Heap, pages: nat): (g: Heap)
    requires pages > 0 && GrowPages(h, pages).ok
    ensures g.pool.frames < h.pool.frames && g.end == h.end + pages * PAGE && g.total == h.total + pages * PAGE
    ensures g.blocks == h.blocks + [Block(h.end, pages * PAGE - HEADER, true)]
  {
    var g := GrowPages(h, pages).heap;
    g.(blocks := h.blocks + [Block(h.end, pages * PAGE - HEADER, true)], total := h.total + pages * PAGE)
  }

  /** kmalloc: the new heap and the pointer, 0 on failure.  After growing it calls
      itself with the aligned size. */
  function Kmalloc(h: Heap, n: nat): (Heap, nat)
    decreases h.pool.frames
  {
    if n == 0 then (h, 0)
    else
      var size := Align16(n);
      var i := FirstFit(h.blocks, size);
      if i < |h.blocks| then (h.(blocks := Take(h.blocks, i, size)), h.blocks[i].addr + HEADER)
      else
        var g := GrowPages(h, PagesFor(size));
        if g.ok then Kmalloc(Grown(h, PagesFor(size)), size) else (g.heap, 0)
  }

  /** kmalloc grows the heap first. */
  predicate Grows(h: Heap, n: nat) { n != 0 && FirstFit(h.blocks, Align16(n)) == |h.blocks| }

  /** No growth inside kmalloc(n) takes heap_virt_end past 2^64. */
  predicate Room(h: Heap, n: nat)
    decreases h.pool.frames
  {
    Grows(h, n) ==>
      var pages := PagesFor(Align16(n));
      && GrowPages(h, pages).heap.end <= U64
      && (GrowPages(h, pages).ok ==> Room(Grown(h, pages), Align16(n)))
  }

  // ---- Free ------------------------------------------------------------------------

  /** The coalescing pass: neighbours in the list that are both free are merged. */
  function Coalesce(bs: seq<Block>): seq<Block>
    decreases |bs|
  {
    if |bs| < 2 then bs
    else if bs[0].free && bs[1].free then
      Coalesce([Block(bs[0].addr, bs[0].size + HEADER + bs[1].size, true)] + bs[2..])
    else [bs[0]] + Coalesce(bs[1..])
  }

  function Kfree(h: Heap, i: nat): Heap
    requires i < |h.blocks|
  {
    h.(blocks := Coalesce(h.blocks[i := h.blocks[i].(free := true)]))
  }

  // ---- What every heap state satisfies -----------------------------------------------

  function Sum(bs: seq<Block>): nat
  {
    if bs == [] then 0 else bs[0].size + HEADER + Sum(bs[1..])
  }

  /** Blocks with their headers follow each other in memory and stay below end. */
  predicate Ordered(bs: seq<Block>, end: nat)
  {
    ( && (forall i :: 0 <= i < |bs| - 1 ==> Stop(bs[i]) <= bs[i + 1].addr)
      && (bs != [] ==> Stop(bs[|bs| - 1]) <= end)) == true
  }

  ghost predicate HeapInv(h: Heap)
  {
    ( && h.blocks != [] && h.blocks[0].addr == HEAP_START
      && Ordered(h.blocks, h.end)
      && Sum(h.blocks) == h.total
      && PageAligned(h.end) && h.end <= U64) == true
  }

  predicate PageAligned(a: nat) { a % PAGE == 0 }

  /** No bytes between the blocks, or after the last one, are lost. */
  predicate Tiled(bs: seq<Block>, end: nat)
  {
    && (forall i :: 0 <= i < |bs| - 1 ==> Stop(bs[i]) == bs[i + 1].addr)
    && (bs != [] ==> Stop(bs[|bs| - 1]) == end)
  }

  predicate NoFreePair(bs: seq<Block>)
  {
    forall i :: 0 <= i < |bs| - 1 ==> !(bs[i].free && bs[i + 1].free)
  }

  /** The heap right after heap_init with one page or more. */
  predicate Fresh(h: Heap)
  {
    && h.total > 0 && h.total % PAGE == 0 && h.end == HEAP_START + h.total && h.end <= U64
    && h.blocks == [Block(HEAP_START, h.total - HEADER, true)]
  }

  /** Every page up to heap_virt_end is mapped. */
  ghost predicate AllMapped(h: Heap)
  {
    (forall page :: HEAP_START / PAGE <= page < h.end / PAGE ==> page in h.mapped) == true
  }
}
