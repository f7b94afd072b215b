/**
 mm/heap.c: first fit, splitting, growing and coalescing over block headers that
 are linked in place, in the same memory as the data of the blocks.
 */
module KernelHeap {
  import opened Sizes
  import opened Bytes
  import opened Memory
  import opened TableFrames
  import opened HeapSpec
  import opened HeapProofs
  import opened HeapRange

  // ---- Headers in memory ---------------------------------------------------------------

  /** block_header_t: size at 0, the int free at 8, next at 16; next == 0 ends the list. */
  datatype Header = Header(size: nat, free: bool, next: nat)

  function HeaderIn(m: Bytemap, a: nat): Header
  {
    Header(Load(m, a, 8), Load(m, a + 8, 4) != 0, Load(m, a + 16, 8))
  }

  /** Nothing outside the header at a changed. */
  ghost predicate Wrote(m: Bytemap, m': Bytemap, a: nat)
  {
    (forall x: nat :: x < a || a + HEADER <= x ==> Peek(m', x) == Peek(m, x)) == true
  }

  lemma WroteTwice(m: Bytemap, m': Bytemap, m'': Bytemap, a: nat)
    requires Wrote(m, m', a) && Wrote(m', m'', a)
    ensures Wrote(m, m'', a)
  {
  }

  lemma FieldWrite(m: Bytemap, a: nat, o: nat, n: nat, v: nat)
    requires (o == 0 && n == 8) || (o == 8 && n == 4) || (o == 16 && n == 8)
    requires v < if n == 8 then U64 else U32
    ensures var m' := Store(m, a + o, n, v);
            && Wrote(m, m', a) && Load(m', a + o, n) == v
            && (o != 0 ==> Load(m', a, 8) == Load(m, a, 8))
            && (o != 8 ==> Load(m', a + 8, 4) == Load(m, a + 8, 4))
            && (o != 16 ==> Load(m', a + 16, 8) == Load(m, a + 16, 8))
  {
    hide Load, Store;
    LoadStored(m, a + o, n, v);
    if o != 0 { LoadPast(m, a + o, n, v, a, 8); }
    if o != 8 { LoadPast(m, a + o, n, v, a + 8, 4); }
    if o != 16 { LoadPast(m, a + o, n, v, a + 16, 8); }
    forall x: nat | x < a || a + HEADER <= x ensures Peek(Store(m, a + o, n, v), x) == Peek(m, x) {
      StorePeek(m, a + o, n, v, x);
    }
  }

  /** A header that does not overlap the one written stays. */
  lemma WroteElsewhere(m: Bytemap, m': Bytemap, a: nat, x: nat)
    requires Wrote(m, m', a) && (x + HEADER <= a || a + HEADER <= x)
    ensures HeaderIn(m', x) == HeaderIn(m, x)
  {
    hide Load;
    LoadSame(m, m', x, 8);
    LoadSame(m, m', x + 8, 4);
    LoadSame(m, m', x + 16, 8);
  }

  // ---- The list in memory --------------------------------------------------------------

  function HeaderOf(bs: seq<Block>, i: nat): Header
    requires i < |bs|
  {
    Header(bs[i].size, bs[i].free, NextAddr(bs, i))
  }

  function NextAddr(bs: seq<Block>, i: nat): nat { if i + 1 < |bs| then bs[i + 1].addr else 0 }

  /** The header at each block's address says what the list says. */
  ghost predicate Chained(m: Bytemap, bs: seq<Block>)
  {
    (forall i :: 0 <= i < |bs| ==> HeaderIn(m, bs[i].addr) == HeaderOf(bs, i)) == true
  }

  /** A header at w lies outside the data area of every block in use. */
  ghost predicate Harmless(w: nat, live: set<Block>)
  {
    (forall b :: b in live ==> w + HEADER <= b.addr + HEADER || Stop(b) <= w) == true
  }

  /** Every byte of every data area in use is as it was. */
  ghost predicate Untouched(m: Bytemap, m': Bytemap, live: set<Block>)
  {
    (forall b, x :: b in live && b.addr + HEADER <= x < Stop(b) ==> Peek(m', x) == Peek(m, x)) == true
  }

  lemma WroteUntouched(m: Bytemap, m': Bytemap, a: nat, live: set<Block>)
    requires Wrote(m, m', a) && Harmless(a, live)
    ensures Untouched(m, m', live)
  {
  }

  lemma UntouchedOn(m: Bytemap, m': Bytemap, m'': Bytemap, live: set<Block>, live': set<Block>)
    requires Untouched(m, m', live) && Untouched(m', m'', live') && live <= live'
    ensures Untouched(m, m'', live)
  {
  }

  lemma UntouchedSub(m: Bytemap, m': Bytemap, a: set<Block>, b: set<Block>)
    requires a <= b && Untouched(m, m', b)
    ensures Untouched(m, m', a) && Untouched(m, m, a)
  {
  }

  class Heap {
    var mem: Bytemap
    var start: nat
    var end: nat
    var total: nat
    var pool: Pool
    ghost var mapped: set<nat>
    /** The list of headers. */
    ghost var blocks: seq<Block>

    ghost function View(): HeapSpec.Heap
      reads this
    {
      HeapSpec.Heap(blocks, end, total, pool, mapped)
    }

    ghost predicate Valid()
      reads this
    {
      HeapInv(View()) && start == HEAP_START && Chained(mem, blocks)
    }

    method SetSize(a: nat, v: nat)
      requires v < U64
      modifies this`mem
      ensures HeaderIn(mem, a) == HeaderIn(old(mem), a).(size := v) && Wrote(old(mem), mem, a)
    {
      hide Load, Store, Wrote;
      FieldWrite(mem, a, 0, 8, v);
      mem := Store(mem, a, 8, v);
    }

    method SetFree(a: nat, free: bool)
      modifies this`mem
      ensures HeaderIn(mem, a) == HeaderIn(old(mem), a).(free := free) && Wrote(old(mem), mem, a)
    {
      hide Load, Store, Wrote;
      FieldWrite(mem, a, 8, 4, if free then 1 else 0);
      mem := Store(mem, a + 8, 4, if free then 1 else 0);
    }

    method SetNext(a: nat, v: nat)
      requires v < U64
      modifies this`mem
      ensures HeaderIn(mem, a) == HeaderIn(old(mem), a).(next := v) && Wrote(old(mem), mem, a)
    {
      hide Load, Store, Wrote;
      FieldWrite(mem, a, 16, 8, v);
      mem := Store(mem, a + 16, 8, v);
    }

    /** The three stores that make a header. */
    method NewHeader(a: nat, size: nat, free: bool, next: nat)
      requires size < U64 && next < U64
      modifies this`mem
      ensures HeaderIn(mem, a) == Header(size, free, next) && Wrote(old(mem), mem, a)
    {
      hide HeaderIn, Wrote;
      SetSize(a, size);
      ghost var m1 := mem;
      SetFree(a, free);
      ghost var m2 := mem;
      SetNext(a, next);
      WroteTwice(old(mem), m1, m2, a);
      WroteTwice(old(mem), m2, mem, a);
    }

    /** heap_grow: on failure the pages passed so far stay part of the range. */
    method Grow(pages: nat) returns (ok: bool)
      modifies this`end, this`pool, this`mapped
      ensures GrowPages(old(View()), pages) == Growth(View(), ok)
    {
      hide PageIn;
      ghost var h := View();
      for i := 0 to pages
        invariant blocks == h.blocks && total == h.total
        invariant GrowPages(View(), pages - i) == GrowPages(h, pages)
      {
        if pool.frames == 0 {
          return false;
        }
        var w := PageIn(pool, end / PAGE);
        mapped := if w.ok then mapped + {end / PAGE} else mapped;
        pool := w.pool;
        end := end + PAGE;
      }
      return true;
    }

    /** The first-fit search of kmalloc. */
    method Search(size: nat) returns (curr: nat, ghost i: nat)
      requires Valid()
      ensures i == FirstFit(blocks, size)
      ensures curr == if FirstFit(blocks, size) < |blocks| then blocks[FirstFit(blocks, size)].addr else 0
      ensures curr != 0 <==> FirstFit(blocks, size) < |blocks|
    {
      hide HeapInv, Ordered, Chained, HeaderIn;
      InvFacts(View());
      curr, i := start, 0;
      HeaderAt(mem, blocks, end, 0);
      while curr != 0 && !(HeaderIn(mem, curr).free && HeaderIn(mem, curr).size >= size)
        invariant 0 <= i <= |blocks| && curr == if i < |blocks| then blocks[i].addr else 0
        invariant curr != 0 ==> i < |blocks| && HeaderIn(mem, curr) == HeaderOf(blocks, i)
        invariant i < |blocks| ==> curr != 0
        invariant forall j :: 0 <= j < i ==> !Fits(blocks[j], size)
        decreases |blocks| - i
      {
        curr, i := HeaderIn(mem, curr).next, i + 1;
        if i < |blocks| { HeaderAt(mem, blocks, end, i); }
      }
      FirstFitIs(blocks, size, i);
    }

    /** The block found is split if it can be, and marked as in use. */
    method TakeBlock(curr: nat, size: nat, ghost i: nat)
      requires Valid() && i < |blocks| && Fits(blocks[i], size) && curr == blocks[i].addr
      modifies this`mem, this`blocks
      ensures Chained(mem, blocks) && blocks == Take(old(blocks), i, size)
      ensures var b := old(blocks)[i]; TakenAt(old(blocks), blocks, i, if b.size >= size + 56 then size else b.size)
      ensures Untouched(old(mem), mem, Live(old(blocks)))
    {
      hide HeapInv, Ordered, Chained, Take, TakenAt, Harmless, Live, HeaderIn, Wrote, Untouched;
      TakeIs(blocks, i, size);
      InvFacts(View());
      HeaderAt(mem, blocks, end, i);
      BlockBounds(blocks, end, i);
      HeaderHarmless(blocks, end, i);
      ghost var m0 := mem;
      if HeaderIn(mem, curr).size >= size + HEADER + MIN_BLOCK {
        var newBlock := curr + HEADER + size;
        InsideHarmless(blocks, end, i, newBlock);
        NewHeader(newBlock, HeaderIn(mem, curr).size - size - HEADER, true, HeaderIn(mem, curr).next);
        ghost var m1 := mem;
        WroteElsewhere(m0, m1, newBlock, curr);
        SetNext(curr, newBlock);
        ghost var m2 := mem;
        SetSize(curr, size);
        WroteTwice(m1, m2, mem, curr);
        ghost var m3 := mem;
        SetFree(curr, false);
        WroteTwice(m1, m3, mem, curr);
        WroteElsewhere(m1, mem, curr, newBlock);
        SplitChained(m0, m1, mem, blocks, end, i, size);
        WroteUntouched(m0, m1, newBlock, Live(blocks));
        WroteUntouched(m1, mem, curr, Live(blocks));
        UntouchedOn(m0, m1, mem, Live(blocks), Live(blocks));
      } else {
        SetFree(curr, false);
        FlagChained(m0, mem, blocks, end, i, false);
        TakeWhole(blocks, i, size);
        WroteUntouched(m0, mem, curr, Live(blocks));
      }
      blocks := Take(blocks, i, size);
    }

    /** The new block is linked behind the last one. */
    method Append(newBlock: nat, ghost size: nat, ghost e: nat)
      requires blocks != [] && blocks[0].addr == start == HEAP_START && Ordered(blocks, e) && Chained(mem, blocks)
      requires e <= newBlock < U64 && HeaderIn(mem, newBlock) == Header(size, true, 0)
      modifies this`mem, this`blocks
      ensures blocks == old(blocks) + [Block(newBlock, size, true)] && Chained(mem, blocks)
      ensures Untouched(old(mem), mem, Live(old(blocks)))
    {
      hide Ordered, Chained, Harmless, Live, HeaderIn, Wrote, Untouched;
      var curr := start;
      ghost var i := 0;
      HeaderAt(mem, blocks, e, 0);
      while HeaderIn(mem, curr).next != 0
        invariant mem == old(mem) && blocks == old(blocks)
        invariant 0 <= i < |blocks| && curr == blocks[i].addr && HeaderIn(mem, curr) == HeaderOf(blocks, i)
        decreases |blocks| - i
      {
        curr, i := HeaderIn(mem, curr).next, i + 1;
        HeaderAt(mem, blocks, e, i);
      }
      if i + 1 < |blocks| { HeaderAt(mem, blocks, e, i + 1); }
      HeaderHarmless(blocks, e, i);
      ghost var m0 := mem;
      SetNext(curr, newBlock);
      WroteUntouched(m0, mem, curr, Live(blocks));
      AppendChained(m0, mem, blocks, e, Block(newBlock, size, true));
      blocks := blocks + [Block(newBlock, size, true)];
    }

    /** kmalloc: the linked headers do what the block list does, and no byte of a block
        in use changes. */
    method Kmalloc(n: nat) returns (p: nat)
      requires Valid() && Room(View(), n) && n < U64
      modifies this
      ensures Valid() && (View(), p) == HeapSpec.Kmalloc(old(View()), n)
      ensures p != 0 ==> exists b :: Gained(old(View()), View(), b, p, Align16(n))
      ensures Untouched(old(mem), mem, Live(old(blocks)))
      decreases pool.frames, 0
    {
      hide HeapInv, Chained, Take, Live, Gained, FirstFit, GrowPages, Untouched;
      ghost var h := View();
      KmallocOk(h, n);
      UntouchedSelf(mem, Live(blocks));
      if n == 0 {
        return 0;
      }
      var size := (n + 15) % U64 / 16 * 16;
      var curr;
      ghost var i;
      curr, i := Search(size);
      if curr != 0 {
        TakeBlock(curr, size, i);
        return curr + HEADER;
      }
      var pages := ((size + HEADER) % U64 + 4095) % U64 / PAGE;
      if pages < 4 {
        pages := 4;
      }
      var oldEnd := end;
      var ok := Grow(pages);
      if !ok {
        return 0;
      }
      AlignCovers(n);
      p := GrowAndRetry(h, oldEnd, pages, size);
    }

    /** The rest of kmalloc after heap_grow succeeded. */
    method GrowAndRetry(ghost h: HeapSpec.Heap, oldEnd: nat, pages: nat, size: nat) returns (p: nat)
      requires HeapInv(h) && start == HEAP_START && Chained(mem, h.blocks) && size < U64
      requires pages > 0 && oldEnd == h.end && GrowPages(h, pages) == Growth(View(), true)
      requires h.end + pages * PAGE <= U64 && Room(Grown(h, pages), size)
      modifies this
      ensures Valid() && (View(), p) == HeapSpec.Kmalloc(Grown(h, pages), size)
      ensures Untouched(old(mem), mem, Live(h.blocks))
      decreases pool.frames, 1
    {
      hide HeapInv, Ordered, Chained, Harmless, Live, HeaderIn, Wrote, Untouched, GrowPages, Room;
      InvFacts(h);
      BeyondHarmless(h.blocks, h.end, oldEnd);
      GrownOk(h, pages);
      var bsize := pages * PAGE - HEADER;
      ghost var m0 := mem;
      NewHeader(oldEnd, bsize, true, 0);
      ghost var m1 := mem;
      OtherChained(m0, m1, blocks, h.end, oldEnd);
      WroteUntouched(m0, m1, oldEnd, Live(h.blocks));
      total := total + pages * PAGE;
      Append(oldEnd, bsize, h.end);
      ghost var m2 := mem;
      UntouchedOn(m0, m1, m2, Live(h.blocks), Live(h.blocks));
      assert View() == Grown(h, pages);
      p := Kmalloc(size);
      UntouchedOn(m0, m2, mem, Live(h.blocks), Live(h.blocks));
    }

    /** kfree: the block is marked free, then neighbours in the list that are both
        free are merged in place.  ptr is null or points behind a header of the
        list, at index k.  No byte of a block that stays in use changes. */
    method Kfree(ptr: nat, ghost k: nat)
      requires Valid()
      requires ptr != 0 ==> k < |blocks| && ptr == blocks[k].addr + HEADER
      modifies this`mem, this`blocks
      ensures Valid()
      ensures View() == if ptr == 0 then old(View()) else HeapSpec.Kfree(old(View()), k)
      ensures Untouched(old(mem), mem, Live(blocks))
    {
      hide HeapInv, Ordered, Chained, Harmless, Live, Coalesce, NoFreePair, HeaderIn, Wrote, Untouched;
      UntouchedSelf(mem, Live(blocks));
      if ptr == 0 {
        return;
      }
      ghost var h := View();
      InvFacts(h);
      HeaderAt(mem, blocks, end, k);
      HeaderHarmless(blocks, end, k);
      var block := ptr - HEADER;
      ghost var m0 := mem;
      SetFree(block, true);
      ghost var m1 := mem;
      FlagChained(m0, m1, blocks, end, k, true);
      FlagOk(blocks, k, true, end);
      FreeOk(h, k);
      WroteUntouched(m0, m1, block, Live(blocks));
      blocks := blocks[k := blocks[k].(free := true)];
      assert blocks[0].addr == h.blocks[0].addr;
      FreedLive(h.blocks, h.end, k);
      CoalesceLive(blocks);
      UntouchedSub(m0, m1, Live(blocks), Live(h.blocks));
      CoalesceList();
      UntouchedOn(m0, m1, mem, Live(blocks), Live(blocks));
    }

    /** The pass of kfree over the list. */
    method CoalesceList()
      requires blocks != [] && blocks[0].addr == start == HEAP_START && Ordered(blocks, end) && Chained(mem, blocks)
      requires end <= U64
      modifies this`mem, this`blocks
      ensures Chained(mem, blocks) && blocks == Coalesce(old(blocks))
      ensures Untouched(old(mem), mem, Live(old(blocks)))
    {
      hide Ordered, Chained, Live, Coalesce, HeaderIn, Untouched;
      var curr := start;
      ghost var k := 0;
      HeaderAt(mem, blocks, end, 0);
      UntouchedSelf(mem, Live(blocks));
      assert blocks == blocks[..0] + blocks[0..];
      assert blocks[..0] + Coalesce(blocks) == Coalesce(blocks);
      while curr != 0
        invariant 0 <= k <= |blocks| && curr == (if k < |blocks| then blocks[k].addr else 0)
        invariant curr != 0 ==> k < |blocks| && HeaderIn(mem, curr) == HeaderOf(blocks, k)
        invariant k < |blocks| ==> curr != 0
        invariant blocks != [] && blocks[0].addr == HEAP_START && Ordered(blocks, end) && Chained(mem, blocks)
        invariant Coalesce(old(blocks)) == blocks[..k] + Coalesce(blocks[k..])
        invariant Live(blocks) == Live(old(blocks)) && Untouched(old(mem), mem, Live(blocks))
        decreases |blocks| - k
      {
        if k + 1 < |blocks| { HeaderAt(mem, blocks, end, k + 1); }
        var next := HeaderIn(mem, curr).next;
        if HeaderIn(mem, curr).free && next != 0 && HeaderIn(mem, next).free {
          ghost var m0 := mem;
          MergeNext(curr, k);
          UntouchedOn(old(mem), m0, mem, Live(blocks), Live(blocks));
        } else {
          AdvanceStep(blocks, k);
          curr, k := next, k + 1;
          if k < |blocks| { HeaderAt(mem, blocks, end, k); }
        }
      }
      CoalesceEnd(blocks);
    }

    /** curr is merged with the block after it. */
    method MergeNext(curr: nat, ghost k: nat)
      requires k + 1 < |blocks| && curr == blocks[k].addr && blocks[k].free && blocks[k + 1].free
      requires blocks[0].addr == HEAP_START && Ordered(blocks, end) && Chained(mem, blocks) && end <= U64
      modifies this`mem, this`blocks
      ensures k < |blocks| == |old(blocks)| - 1 && blocks[0].addr == HEAP_START && blocks[k].addr == curr
      ensures Ordered(blocks, end) && Chained(mem, blocks) && Live(blocks) == Live(old(blocks))
      ensures blocks[..k] == old(blocks[..k]) && Coalesce(blocks[k..]) == Coalesce(old(blocks[k..]))
      ensures HeaderIn(mem, curr) == HeaderOf(blocks, k)
      ensures Untouched(old(mem), mem, Live(blocks))
    {
      hide Ordered, Chained, Harmless, Live, Coalesce, Merged, HeaderIn, Wrote, Untouched;
      HeaderAt(mem, blocks, end, k);
      HeaderAt(mem, blocks, end, k + 1);
      BlockBounds(blocks, end, k);
      BlockBounds(blocks, end, k + 1);
      AddrsDiffer(blocks, end, k, k + 1);
      HeaderHarmless(blocks, end, k);
      ghost var m0 := mem;
      var next := HeaderIn(mem, curr).next;
      SetSize(curr, HeaderIn(mem, curr).size + HEADER + HeaderIn(mem, next).size);
      ghost var m1 := mem;
      WroteElsewhere(m0, m1, curr, next);
      SetNext(curr, HeaderIn(mem, next).next);
      WroteTwice(m0, m1, mem, curr);
      ghost var r := blocks[..k] + Merged(blocks[k..]);
      MergeShape(blocks, k);
      MergeChained(m0, mem, blocks, r, end, k);
      MergeOrdered(blocks, r, end, k);
      MergeLive(blocks, r, k);
      MergeStep(blocks, r, k);
      WroteUntouched(m0, mem, curr, Live(blocks));
      blocks := r;
      HeaderAt(mem, blocks, end, k);
    }

    /** heap_init; every page is mapped exactly when none was skipped. */
    method Init(pages: nat) returns (ok: bool)
      requires pages >= 1 && HEAP_START + pages * PAGE <= U64
      modifies this
      ensures ok ==> Valid() && Fresh(View()) && MappedBelow(View())
      ensures var h := HeapSpec.Heap(old(blocks), HEAP_START, old(total), old(pool), {});
              && (ok <==> GrowPages(h, pages).ok)
              && (ok ==> (AllMapped(View()) <==> !Skips(h, pages)))
    {
      hide GrowPages, Skips, AllMapped, MappedBelow, HeaderIn, Wrote;
      end := HEAP_START;
      mapped := {};
      ghost var h := View();
      BeforeInit(h);
      GrowMapped(h, pages);
      ok := Grow(pages);
      if ok {
        total := pages * PAGE;
        start := HEAP_START;
        NewHeader(start, total - HEADER, true, 0);
        blocks := [Block(start, total - HEADER, true)];
        SameMapped(GrowPages(h, pages).heap, View());
        InitInv(View(), pages);
      }
    }

    /** heap_get_stats: bytes under management, in use and free. */
    method Stats() returns (t: nat, u: nat, f: nat)
      requires Valid()
      ensures t == total && u == Used(blocks) && t == u + f + |blocks| * HEADER
    {
      hide HeapInv, Ordered, Chained, Sum, Used, HeaderIn;
      InvFacts(View());
      InvTotal(View());
      t, u, f := 0, 0, 0;
      var curr := start;
      ghost var k := 0;
      HeaderAt(mem, blocks, end, 0);
      NoneCounted(blocks);
      while curr != 0
        invariant 0 <= k <= |blocks| && curr == (if k < |blocks| then blocks[k].addr else 0)
        invariant curr != 0 ==> k < |blocks| && HeaderIn(mem, curr) == HeaderOf(blocks, k)
        invariant k < |blocks| ==> curr != 0
        invariant t == Sum(blocks[..k]) && u == Used(blocks[..k]) && t == u + f + k * HEADER
        decreases |blocks| - k
      {
        OneCounted(blocks, k);
        t := t + HeaderIn(mem, curr).size + HEADER;
        if HeaderIn(mem, curr).free {
          f := f + HeaderIn(mem, curr).size;
        } else {
          u := u + HeaderIn(mem, curr).size;
        }
        curr, k := HeaderIn(mem, curr).next, k + 1;
        if k < |blocks| { HeaderAt(mem, blocks, end, k); }
      }
      assert blocks[..k] == blocks;
    }
  }

  lemma BeforeInit(h: HeapSpec.Heap)
    requires h.end == HEAP_START && h.mapped == {}
    ensures PageAligned(h.end) && MappedBelow(h) && AllMapped(h)
  {
  }

  lemma InitInv(h: HeapSpec.Heap, pages: nat)
    requires h.total == pages * PAGE && pages >= 1 && h.end == HEAP_START + h.total && h.end <= U64
    requires h.blocks == [Block(HEAP_START, h.total - HEADER, true)]
    ensures HeapInv(h) && Fresh(h)
  {
    assert h.blocks[1..] == [];
    AlignedOn(HEAP_START, pages);
  }

  /** Bytes of data area in use. */
  function Used(bs: seq<Block>): nat
  {
    if bs == [] then 0 else (if bs[0].free then 0 else bs[0].size) + Used(bs[1..])
  }

  lemma NoneCounted(bs: seq<Block>)
    ensures Sum(bs[..0]) == 0 && Used(bs[..0]) == 0
  {
  }

  lemma {:induction false} UsedConcat(a: seq<Block>, b: seq<Block>)
    ensures Used(a + b) == Used(a) + Used(b)
  {
    if a == [] {
      assert a + b == b;
    } else {
      assert (a + b)[1..] == a[1..] + b;
      UsedConcat(a[1..], b);
    }
  }

  lemma OneCounted(bs: seq<Block>, k: nat)
    requires k < |bs|
    ensures Sum(bs[..k + 1]) == Sum(bs[..k]) + bs[k].size + HEADER
    ensures Used(bs[..k + 1]) == Used(bs[..k]) + (if bs[k].free then 0 else bs[k].size)
  {
    assert bs[..k + 1] == bs[..k] + [bs[k]];
    SumConcat(bs[..k], [bs[k]]);
    UsedConcat(bs[..k], [bs[k]]);
    assert [bs[k]][1..] == [];
  }

  lemma InvTotal(h: HeapSpec.Heap)
    requires HeapInv(h)
    ensures Sum(h.blocks) == h.total
  {
  }

  /** r is bs with blocks k and k + 1 merged. */
  predicate MergedAt(bs: seq<Block>, r: seq<Block>, k: nat)
  {
    && k + 1 < |bs| == |r| + 1
    && (forall j :: 0 <= j < k ==> r[j] == bs[j])
    && r[k] == Block(bs[k].addr, bs[k].size + HEADER + bs[k + 1].size, true)
    && (forall j :: k < j < |r| ==> r[j] == bs[j + 1])
  }

  lemma MergeShape(bs: seq<Block>, k: nat)
    requires k + 1 < |bs|
    ensures MergedAt(bs, bs[..k] + Merged(bs[k..]), k)
  {
  }

  lemma MergeChained(m: Bytemap, m': Bytemap, bs: seq<Block>, r: seq<Block>, end: nat, k: nat)
    requires Ordered(bs, end) && Chained(m, bs) && MergedAt(bs, r, k) && Wrote(m, m', bs[k].addr)
    requires HeaderIn(m', bs[k].addr) == Header(bs[k].size + HEADER + bs[k + 1].size, true, NextAddr(bs, k + 1))
    ensures Chained(m', r)
  {
    hide Ordered, HeaderIn, Wrote;
    forall j | 0 <= j < |r| ensures HeaderIn(m', r[j].addr) == HeaderOf(r, j) {
      if j < k {
        OthersKept(m, m', bs, end, k, bs[k].addr, j);
        assert NextAddr(r, j) == NextAddr(bs, j);
      } else if j > k {
        OthersKept(m, m', bs, end, k, bs[k].addr, j + 1);
        assert NextAddr(r, j) == NextAddr(bs, j + 1);
      }
    }
  }

  lemma MergeOrdered(bs: seq<Block>, r: seq<Block>, end: nat, k: nat)
    requires Ordered(bs, end) && MergedAt(bs, r, k)
    ensures Ordered(r, end)
  {
    assert Stop(bs[k]) <= bs[k + 1].addr;
    assert Stop(r[k]) <= Stop(bs[k + 1]);
    forall j | 0 <= j < |r| - 1 ensures Stop(r[j]) <= r[j + 1].addr {
      if j < k { assert Stop(bs[j]) <= bs[j + 1].addr; } else { assert Stop(bs[j + 1]) <= bs[j + 2].addr; }
    }
  }

  lemma MergeLive(bs: seq<Block>, r: seq<Block>, k: nat)
    requires MergedAt(bs, r, k) && bs[k].free && bs[k + 1].free
    ensures Live(r) == Live(bs)
  {
    forall x | x in Live(bs) ensures x in Live(r) {
      var j :| 0 <= j < |bs| && bs[j] == x;
      assert r[if j < k then j else j - 1] == x;
    }
    forall x | x in Live(r) ensures x in Live(bs) {
      var j :| 0 <= j < |r| && r[j] == x;
      assert bs[if j < k then j else j + 1] == x;
    }
  }

  /** One merge of the pass. */
  lemma MergeStep(bs: seq<Block>, r: seq<Block>, k: nat)
    requires k + 1 < |bs| && bs[k].free && bs[k + 1].free && r == bs[..k] + Merged(bs[k..])
    ensures r[..k] == bs[..k] && Coalesce(r[k..]) == Coalesce(bs[k..])
  {
    assert r[k..] == Merged(bs[k..]);
  }

  /** The pass moves on over a block that cannot be merged. */
  lemma AdvanceStep(bs: seq<Block>, k: nat)
    requires k < |bs| && !(k + 1 < |bs| && bs[k].free && bs[k + 1].free)
    ensures bs[..k] + Coalesce(bs[k..]) == bs[..k + 1] + Coalesce(bs[k + 1..])
  {
    assert bs[k..][1..] == bs[k + 1..];
    assert bs[..k + 1] == bs[..k] + [bs[k]];
    assert Coalesce(bs[k..]) == [bs[k]] + Coalesce(bs[k + 1..]);
  }

  lemma CoalesceEnd(bs: seq<Block>)
    ensures bs[..|bs|] + Coalesce(bs[|bs|..]) == bs
  {
  }

  lemma UntouchedSelf(m: Bytemap, live: set<Block>)
    ensures Untouched(m, m, live)
  {
  }

  lemma InvFacts(h: HeapSpec.Heap)
    requires HeapInv(h)
    ensures h.blocks != [] && h.blocks[0].addr == HEAP_START && Ordered(h.blocks, h.end) && h.end <= U64
  {
  }

  lemma HeaderAt(m: Bytemap, bs: seq<Block>, end: nat, i: nat)
    requires Ordered(bs, end) && i < |bs| && bs[0].addr == HEAP_START && Chained(m, bs)
    ensures bs[i].addr >= HEAP_START && HeaderIn(m, bs[i].addr) == HeaderOf(bs, i)
  {
    Within(bs, end, i);
  }

  /** Sizes and addresses fit their 64-bit fields. */
  lemma BlockBounds(bs: seq<Block>, end: nat, i: nat)
    requires Ordered(bs, end) && i < |bs| && end <= U64
    ensures Stop(bs[i]) <= end && NextAddr(bs, i) < U64
  {
    Within(bs, end, i);
    if i + 1 < |bs| { Within(bs, end, i + 1); }
  }

  lemma TakeWhole(bs: seq<Block>, i: nat, size: nat)
    requires i < |bs| && Fits(bs[i], size) && bs[i].size < size + HEADER + MIN_BLOCK
    ensures Take(bs, i, size) == bs[i := bs[i].(free := false)]
  {
  }

  /** Where the headers of an ordered list are: each address once. */
  lemma AddrsDiffer(bs: seq<Block>, end: nat, i: nat, j: nat)
    requires Ordered(bs, end) && i < |bs| && j < |bs| && i != j
    ensures bs[i].addr != bs[j].addr
    ensures if i < j then Stop(bs[i]) <= bs[j].addr else Stop(bs[j]) <= bs[i].addr
  {
    if i < j { Disjoint(bs, end, i, j); } else { Disjoint(bs, end, j, i); }
  }

  lemma HeaderHarmless(bs: seq<Block>, end: nat, i: nat)
    requires Ordered(bs, end) && i < |bs|
    ensures Harmless(bs[i].addr, Live(bs))
  {
    forall b | b in Live(bs) ensures bs[i].addr + HEADER <= b.addr + HEADER || Stop(b) <= bs[i].addr {
      var k :| 0 <= k < |bs| && bs[k] == b;
      if k != i { AddrsDiffer(bs, end, i, k); }
    }
  }

  lemma InsideHarmless(bs: seq<Block>, end: nat, i: nat, w: nat)
    requires Ordered(bs, end) && i < |bs| && bs[i].free && bs[i].addr + HEADER <= w && w + HEADER <= Stop(bs[i])
    ensures Harmless(w, Live(bs))
  {
    forall b | b in Live(bs) ensures w + HEADER <= b.addr + HEADER || Stop(b) <= w {
      var k :| 0 <= k < |bs| && bs[k] == b;
      AddrsDiffer(bs, end, i, k);
    }
  }

  lemma BeyondHarmless(bs: seq<Block>, end: nat, w: nat)
    requires Ordered(bs, end) && w >= end
    ensures Harmless(w, Live(bs))
  {
    forall b | b in Live(bs) ensures Stop(b) <= w {
      var k :| 0 <= k < |bs| && bs[k] == b;
      Within(bs, end, k);
    }
  }

  /** A header written inside block i leaves the headers of the other blocks alone. */
  lemma OthersKept(m: Bytemap, m': Bytemap, bs: seq<Block>, end: nat, i: nat, a: nat, k: nat)
    requires Ordered(bs, end) && Wrote(m, m', a) && i < |bs| && k < |bs| && k != i
    requires bs[i].addr <= a && a + HEADER <= Stop(bs[i])
    ensures HeaderIn(m', bs[k].addr) == HeaderIn(m, bs[k].addr)
  {
    AddrsDiffer(bs, end, i, k);
    WroteElsewhere(m, m', a, bs[k].addr);
  }

  lemma SplitChained(m0: Bytemap, m1: Bytemap, m2: Bytemap, bs: seq<Block>, end: nat, i: nat, size: nat)
    requires Ordered(bs, end) && Chained(m0, bs) && i < |bs| && Fits(bs[i], size) && bs[i].size >= size + HEADER + MIN_BLOCK
    requires Wrote(m0, m1, bs[i].addr + HEADER + size) && Wrote(m1, m2, bs[i].addr)
    requires HeaderIn(m2, bs[i].addr) == Header(size, false, bs[i].addr + HEADER + size)
    requires HeaderIn(m2, bs[i].addr + HEADER + size) == Header(bs[i].size - size - HEADER, true, NextAddr(bs, i))
    ensures Chained(m2, Take(bs, i, size))
  {
    hide Take, Ordered, HeaderIn, Wrote;
    var r := Take(bs, i, size);
    SplitShape(bs, i, size);
    forall k | 0 <= k < |r| ensures HeaderIn(m2, r[k].addr) == HeaderOf(r, k) {
      if k < i {
        OthersKept(m0, m1, bs, end, i, bs[i].addr + HEADER + size, k);
        OthersKept(m1, m2, bs, end, i, bs[i].addr, k);
        assert NextAddr(r, k) == NextAddr(bs, k);
      } else if k > i + 1 {
        OthersKept(m0, m1, bs, end, i, bs[i].addr + HEADER + size, k - 1);
        OthersKept(m1, m2, bs, end, i, bs[i].addr, k - 1);
        assert NextAddr(r, k) == NextAddr(bs, k - 1);
      }
    }
  }

  lemma FlagChained(m: Bytemap, m': Bytemap, bs: seq<Block>, end: nat, i: nat, free: bool)
    requires Ordered(bs, end) && Chained(m, bs) && i < |bs|
    requires Wrote(m, m', bs[i].addr) && HeaderIn(m', bs[i].addr) == Header(bs[i].size, free, NextAddr(bs, i))
    ensures Chained(m', bs[i := bs[i].(free := free)])
  {
    hide Ordered, HeaderIn, Wrote;
    var r := bs[i := bs[i].(free := free)];
    forall k | 0 <= k < |r| ensures HeaderIn(m', r[k].addr) == HeaderOf(r, k) {
      assert NextAddr(r, k) == NextAddr(bs, k);
      if k != i { OthersKept(m, m', bs, end, i, bs[i].addr, k); }
    }
  }

  lemma OtherChained(m: Bytemap, m': Bytemap, bs: seq<Block>, end: nat, a: nat)
    requires Ordered(bs, end) && Chained(m, bs) && a >= end && Wrote(m, m', a)
    ensures Chained(m', bs)
  {
    hide Ordered, HeaderIn, Wrote;
    forall k | 0 <= k < |bs| ensures HeaderIn(m', bs[k].addr) == HeaderIn(m, bs[k].addr) {
      Within(bs, end, k);
      WroteElsewhere(m, m', a, bs[k].addr);
    }
  }

  lemma AppendChained(m: Bytemap, m': Bytemap, bs: seq<Block>, end: nat, b: Block)
    requires bs != [] && Ordered(bs, end) && Chained(m, bs) && b.addr >= end
    requires HeaderIn(m, b.addr) == Header(b.size, b.free, 0)
    requires var l := |bs| - 1; Wrote(m, m', bs[l].addr) && HeaderIn(m', bs[l].addr) == Header(bs[l].size, bs[l].free, b.addr)
    ensures Chained(m', bs + [b])
  {
    hide Ordered, HeaderIn, Wrote;
    var r := bs + [b];
    var l := |bs| - 1;
    Within(bs, end, l);
    WroteElsewhere(m, m', bs[l].addr, b.addr);
    forall k | 0 <= k < |r| ensures HeaderIn(m', r[k].addr) == HeaderOf(r, k) {
      if k < l { OthersKept(m, m', bs, end, l, bs[l].addr, k); assert NextAddr(r, k) == NextAddr(bs, k); }
    }
  }

  lemma FirstFitIs(bs: seq<Block>, size: nat, i: nat)
    requires i <= |bs| && (i < |bs| ==> Fits(bs[i], size)) && forall j :: 0 <= j < i ==> !Fits(bs[j], size)
    ensures FirstFit(bs, size) == i
  {
  }
}
