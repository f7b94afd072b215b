/**
 Whole runs of the kernel heap: any interleaving of kmalloc, kfree, stores by the
 owners of the blocks and other users of the page allocator.
 */
module HeapRuns {
  import opened Arith
  import opened Sizes
  import opened Bytes
  import opened Memory
  import opened TableFrames
  import opened HeapSpec
  import opened HeapProofs
  import opened HeapRange
  import K = KernelHeap

  /** kmalloc(n); kfree(ptr); what the page allocator and the tables have after somebody
      else used them; a byte stored by the owner of a block. */
  datatype Op = Malloc(n: nat) | Release(ptr: nat) | Others(pool: Pool) | Write(a: nat, v: Byte)

  /** The block whose data starts at ptr, or the number of blocks. */
  function Owner(bs: seq<Block>, ptr: nat): (k: nat)
    ensures k <= |bs| && (k < |bs| ==> bs[k].addr + HEADER == ptr)
  {
    if bs == [] || bs[0].addr + HEADER == ptr then 0 else 1 + Owner(bs[1..], ptr)
  }

  /** What callers respect: 64-bit sizes that do not grow the heap past 2^64, pointers
      that kmalloc returned, stores into blocks in use. */
  ghost predicate Legal(h: Heap, op: Op)
  {
    match op
    case Malloc(n) => n < U64 && Room(h, n)
    case Release(ptr) => ptr == 0 || Owner(h.blocks, ptr) < |h.blocks|
    case Others(_) => true
    case Write(a, _) => exists b :: b in Live(h.blocks) && b.addr + HEADER <= a < Stop(b)
  }

  function Step(h: Heap, op: Op): Heap
  {
    match op
    case Malloc(n) => Kmalloc(h, n).0
    case Release(ptr) => if Owner(h.blocks, ptr) < |h.blocks| then Kfree(h, Owner(h.blocks, ptr)) else h
    case Others(pool) => h.(pool := pool)
    case Write(_, _) => h
  }

  ghost predicate Run(hs: seq<Heap>, ops: seq<Op>)
  {
    && |hs| == |ops| + 1
    && forall t :: 0 <= t < |ops| ==> Legal(hs[t], ops[t]) && hs[t + 1] == Step(hs[t], ops[t])
  }

  /** Headers and sizes are multiples of eight. */
  predicate Aligned(bs: seq<Block>)
  {
    forall i :: 0 <= i < |bs| ==> By8(bs[i].addr) && By8(bs[i].size)
  }

  predicate By8(n: nat) { n % 8 == 0 }

  ghost predicate HeapSafe(h: Heap)
  {
    && HeapInv(h) && Aligned(h.blocks)
    && (forall a, b :: a in Live(h.blocks) && b in Live(h.blocks) && a != b ==> Stop(a) <= b.addr || Stop(b) <= a.addr)
    && (forall a :: a in Live(h.blocks) ==> HEAP_START <= a.addr && Stop(a) <= h.end)
  }

  /** In every state of every run from heap_init the data areas in use are disjoint,
      below heap_virt_end and 8-aligned, and the sizes add up to the total. */
  lemma {:induction false} RunSafe(hs: seq<Heap>, ops: seq<Op>, t: nat)
    requires Run(hs, ops) && Fresh(hs[0]) && t <= |ops|
    ensures HeapSafe(hs[t])
  {
    RunKeeps(hs, ops, t);
    LiveDisjoint(hs[t]);
  }

  /** A block in use that nobody frees stays where it is with its size, whatever
      is allocated and freed around it. */
  lemma {:induction false} BlockKept(hs: seq<Heap>, ops: seq<Op>, t: nat, u: nat, b: Block)
    requires Run(hs, ops) && Fresh(hs[0]) && t <= u <= |ops| && b in Live(hs[t].blocks)
    requires forall k :: t <= k < u && ops[k].Release? ==> ops[k].ptr != b.addr + HEADER
    ensures b in Live(hs[u].blocks)
    decreases u - t
  {
    if t < u {
      RunKeeps(hs, ops, t);
      StepLive(hs[t], ops[t], b);
      BlockKept(hs, ops, t + 1, u, b);
    }
  }

  /** p points to a block in use that was not in use before, with room for size bytes and
      less than 56 more, and no block in use before starts at p. */
  ghost predicate NewPointer(h: Heap, h': Heap, p: nat, size: nat)
  {
    && By8(p)
    && (forall a :: a in Live(h.blocks) ==> a.addr + HEADER != p)
    && exists b :: b in Live(h'.blocks) && b !in Live(h.blocks) && b.addr + 24 == p && size <= b.size < size + 56
  }

  /** What kmalloc returns, anywhere in a run, is null or a new pointer. */
  lemma FreshPointer(hs: seq<Heap>, ops: seq<Op>, t: nat)
    requires Run(hs, ops) && Fresh(hs[0]) && t < |ops| && ops[t].Malloc?
    ensures var (h', p) := Kmalloc(hs[t], ops[t].n);
            h' == hs[t + 1] && (p != 0 ==> NewPointer(hs[t], h', p, Align16(ops[t].n)))
  {
    hide Kmalloc, NewPointer, Gained, Aligned;
    RunKeeps(hs, ops, t);
    RunKeeps(hs, ops, t + 1);
    KmallocOk(hs[t], ops[t].n);
    var (h', p) := Kmalloc(hs[t], ops[t].n);
    if p != 0 {
      var b :| Gained(hs[t], h', b, p, Align16(ops[t].n));
      GainedPointer(hs[t], h', b, p, Align16(ops[t].n));
    }
  }

  lemma GainedPointer(h: Heap, h': Heap, b: Block, p: nat, size: nat)
    requires HeapInv(h') && Aligned(h'.blocks) && Gained(h, h', b, p, size)
    ensures NewPointer(h, h', p, size)
  {
    hide HeapInv, By8;
    LiveDisjoint(h');
    By8Sum(b.addr, b.addr);
    assert b in Live(h'.blocks);
    assert forall a :: a in Live(h.blocks) ==> a in Live(h'.blocks);
  }

  // ---- The bytes of the blocks ---------------------------------------------------------

  datatype State = State(h: Heap, m: Bytemap)

  /** A step of the code with the memory it works on. */
  ghost predicate StepTo(s: State, op: Op, s': State)
  {
    && Legal(s.h, op) && s'.h == Step(s.h, op)
    && match op
       case Malloc(_) => K.Untouched(s.m, s'.m, Live(s.h.blocks))
       case Release(_) => K.Untouched(s.m, s'.m, Live(s'.h.blocks))
       case Others(_) => s'.m == s.m
       case Write(a, v) => s'.m == s.m[a := v]
  }

  ghost predicate MemRun(ss: seq<State>, ops: seq<Op>)
  {
    && |ss| == |ops| + 1
    && forall t :: 0 <= t < |ops| ==> StepTo(ss[t], ops[t], ss[t + 1])
  }

  ghost function Heaps(ss: seq<State>): seq<Heap> { seq(|ss|, i requires 0 <= i < |ss| => ss[i].h) }

  /** Every operation on the linked headers is such a step: any list of calls carried
      out by the code is a run. */
  method Execute(heap: K.Heap, ops: seq<Op>) returns (ghost ss: seq<State>)
    requires heap.Valid() && LegalAll(heap.View(), ops)
    modifies heap
    ensures heap.Valid() && MemRun(ss, ops)
    ensures ss[0] == State(old(heap.View()), old(heap.mem)) && ss[|ops|] == State(heap.View(), heap.mem)
  {
    hide HeapInv, Kmalloc, K.Untouched, K.Chained, Legal;
    ss := [State(heap.View(), heap.mem)];
    assert ops[0..] == ops;
    for i := 0 to |ops|
      invariant heap.Valid() && LegalAll(heap.View(), ops[i..])
      invariant |ss| == i + 1 && ss[i] == State(heap.View(), heap.mem) && ss[0] == State(old(heap.View()), old(heap.mem))
      invariant forall t :: 0 <= t < i ==> StepTo(ss[t], ops[t], ss[t + 1])
    {
      assert ops[i..][0] == ops[i] && ops[i..][1..] == ops[i + 1..];
      ghost var s := State(heap.View(), heap.mem);
      Perform(heap, ops[i]);
      ghost var s' := State(heap.View(), heap.mem);
      assert StepTo(s, ops[i], s');
      ss := ss + [s'];
    }
  }

  ghost predicate LegalAll(h: Heap, ops: seq<Op>)
    decreases |ops|
  {
    ops != [] ==> Legal(h, ops[0]) && LegalAll(Step(h, ops[0]), ops[1..])
  }

  method Perform(heap: K.Heap, op: Op)
    requires heap.Valid() && Legal(heap.View(), op)
    modifies heap
    ensures heap.Valid() && StepTo(State(old(heap.View()), old(heap.mem)), op, State(heap.View(), heap.mem))
  {
    hide HeapInv, Kmalloc, Kfree, K.Untouched, K.Chained, Live;
    match op
    case Malloc(n) =>
      var p := heap.Kmalloc(n);
    case Release(ptr) =>
      NullOwner(heap.View());
      heap.Kfree(ptr, Owner(heap.blocks, ptr));
    case Others(pool) =>
      ghost var h := heap.View();
      heap.pool := pool;
      SameInv(h, heap.View());
    case Write(a, v) =>
      UserWrite(heap.View(), heap.mem, a, v);
      heap.mem := heap.mem[a := v];
  }

  lemma NullOwner(h: Heap)
    requires HeapInv(h)
    ensures Owner(h.blocks, 0) == |h.blocks|
  {
  }

  lemma SameInv(h: Heap, g: Heap)
    requires HeapInv(h) && g == h.(pool := g.pool)
    ensures HeapInv(g)
  {
  }

  /** A store into a block in use hits no header. */
  lemma UserWrite(h: Heap, m: Bytemap, a: nat, v: Byte)
    requires HeapInv(h) && K.Chained(m, h.blocks) && Legal(h, Write(a, v))
    ensures K.Chained(m[a := v], h.blocks)
  {
    hide Ordered, K.HeaderIn;
    var b :| b in Live(h.blocks) && b.addr + HEADER <= a < Stop(b);
    var i :| 0 <= i < |h.blocks| && h.blocks[i] == b;
    forall k | 0 <= k < |h.blocks| ensures K.HeaderIn(m[a := v], h.blocks[k].addr) == K.HeaderIn(m, h.blocks[k].addr) {
      if k < i { Disjoint(h.blocks, h.end, k, i); } else if k > i { Disjoint(h.blocks, h.end, i, k); }
      HeaderPast(m, a, v, h.blocks[k].addr);
    }
  }

  lemma HeaderPast(m: Bytemap, a: nat, v: Byte, x: nat)
    requires a < x || x + HEADER <= a
    ensures K.HeaderIn(m[a := v], x) == K.HeaderIn(m, x)
  {
    hide Load;
    LoadSame(m, m[a := v], x, 8);
    LoadSame(m, m[a := v], x + 8, 4);
    LoadSame(m, m[a := v], x + 16, 8);
  }

  /** Through every run a byte of a block keeps its value until the block is freed or
      its owner stores to that byte. */
  lemma {:induction false} BytesKept(ss: seq<State>, ops: seq<Op>, t: nat, u: nat, b: Block, x: nat)
    requires MemRun(ss, ops) && Fresh(ss[0].h) && t <= u <= |ops|
    requires b in Live(ss[t].h.blocks) && b.addr + HEADER <= x < Stop(b)
    requires forall k :: t <= k < u ==> !(ops[k].Release? && ops[k].ptr == b.addr + HEADER) && !(ops[k].Write? && ops[k].a == x)
    ensures b in Live(ss[u].h.blocks) && Peek(ss[u].m, x) == Peek(ss[t].m, x)
    decreases u - t
  {
    if t < u {
      RunOf(ss, ops);
      RunKeeps(Heaps(ss), ops, t);
      StepLive(ss[t].h, ops[t], b);
      assert StepTo(ss[t], ops[t], ss[t + 1]);
      hide Legal, Step;
      BytesKept(ss, ops, t + 1, u, b, x);
    }
  }

  lemma RunOf(ss: seq<State>, ops: seq<Op>)
    requires MemRun(ss, ops)
    ensures Run(Heaps(ss), ops)
  {
    forall t | 0 <= t < |ops| ensures Legal(Heaps(ss)[t], ops[t]) && Heaps(ss)[t + 1] == Step(Heaps(ss)[t], ops[t]) {
      assert StepTo(ss[t], ops[t], ss[t + 1]);
    }
  }

  // ---- The range over runs -------------------------------------------------------------

  /** The step grows the heap and fails after moving its end. */
  predicate LeavesGap(h: Heap, op: Op) { PageAligned(h.end) && op.Malloc? && PartFails(h, op.n) }

  /** The step moves the end over a page that could not be mapped. */
  predicate LosesPage(h: Heap, op: Op) { op.Malloc? && Misses(h, op.n) }

  /** In every state of every run the blocks tile the range exactly if and only if no
      growth before failed half way. */
  lemma {:induction false} RunTiled(hs: seq<Heap>, ops: seq<Op>, t: nat)
    requires Run(hs, ops) && Fresh(hs[0]) && t <= |ops|
    ensures Tiled(hs[t].blocks, hs[t].end) <==> forall k :: 0 <= k < t ==> !LeavesGap(hs[k], ops[k])
  {
    hide Tiled, HeapInv, Fresh, LeavesGap;
    RunKeeps(hs, ops, t);
    TiledIsTotal(hs[t]);
    RunGap(hs, ops, t);
  }

  lemma {:induction false} RunGap(hs: seq<Heap>, ops: seq<Op>, t: nat)
    requires Run(hs, ops) && Fresh(hs[0]) && t <= |ops|
    ensures hs[t].end - hs[t].total >= HEAP_START
    ensures hs[t].end - hs[t].total == HEAP_START <==> forall k :: 0 <= k < t ==> !LeavesGap(hs[k], ops[k])
  {
    hide Legal, Step, LeavesGap;
    if t > 0 {
      RunGap(hs, ops, t - 1);
      RunKeeps(hs, ops, t - 1);
      StepGap(hs[t - 1], ops[t - 1]);
    }
  }

  lemma StepGap(h: Heap, op: Op)
    requires HeapInv(h)
    ensures var g := Step(h, op);
            g.end - g.total >= h.end - h.total && (g.end - g.total == h.end - h.total <==> !LeavesGap(h, op))
  {
    hide Kmalloc, PartFails;
    if op.Malloc? { KmallocGap(h, op.n); }
  }

  /** In every state of every run all pages below heap_virt_end are mapped if and only if
      they were after heap_init and no growth since found a page without the frames
      for its tables. */
  lemma {:induction false} RunMapped(hs: seq<Heap>, ops: seq<Op>, t: nat)
    requires Run(hs, ops) && Fresh(hs[0]) && MappedBelow(hs[0]) && t <= |ops|
    ensures MappedBelow(hs[t])
    ensures AllMapped(hs[t]) <==> AllMapped(hs[0]) && forall k :: 0 <= k < t ==> !LosesPage(hs[k], ops[k])
  {
    hide AllMapped, MappedBelow, HeapInv, Fresh, LosesPage;
    if t > 0 {
      RunMapped(hs, ops, t - 1);
      RunKeeps(hs, ops, t - 1);
      StepMapped(hs[t - 1], ops[t - 1]);
    }
  }

  lemma StepMapped(h: Heap, op: Op)
    requires HeapInv(h) && MappedBelow(h)
    ensures MappedBelow(Step(h, op)) && (AllMapped(Step(h, op)) <==> AllMapped(h) && !LosesPage(h, op))
  {
    hide Kmalloc, Misses;
    if op.Malloc? { KmallocMapped(h, op.n); } else { SameMapped(h, Step(h, op)); }
  }

  /** A heap of one page and one more frame: kmalloc(8192) moves the end by a page,
      fails, and leaves a gap. */
  lemma GapExample(h: Heap)
    requires Fresh(h) && h.total == PAGE && h.pool.frames == 1
    ensures var hs := [h, Kmalloc(h, 8192).0];
            Run(hs, [Malloc(8192)]) && Kmalloc(h, 8192).1 == 0 && !Tiled(hs[1].blocks, hs[1].end)
  {
    PageInIs(h.pool, h.end / PAGE);
    assert Align16(8192) == 8192 && PagesFor(8192) == 4;
    assert FirstFit(h.blocks, 8192) == |h.blocks| by { assert !Fits(h.blocks[0], 8192); }
    assert GrowPages(MapNext(h), 3) == Growth(MapNext(h), false);
    assert GrowPages(h, 4) == Growth(MapNext(h), false);
    assert Room(h, 8192);
    assert LeavesGap(h, Malloc(8192));
    RunTiled([h, Kmalloc(h, 8192).0], [Malloc(8192)], 1);
  }

  /** The heap after heap_init(64) with the tables of its first page and 449 frames left. */
  function SmallPool(): Heap
  {
    Heap([Block(HEAP_START, 64 * PAGE - HEADER, true)], HEAP_START + 64 * PAGE, 64 * PAGE,
         Pool(449, NodesOf(HEAP_START / PAGE, 3)), set q | q in Upto(HEAP_START / PAGE, 64))
  }

  /** From there kmalloc of 448 pages succeeds on 449 new ones, of which the last one, the
      first of a new table, is not mapped. */
  lemma LostPageExample()
    ensures var h, n := SmallPool(), 448 * PAGE;
            && Fresh(h) && MappedBelow(h) && AllMapped(h) && Run([h, Kmalloc(h, n).0], [Malloc(n)])
            && Kmalloc(h, n).1 != 0 && !AllMapped(Kmalloc(h, n).0)
  {
    var h, n := SmallPool(), 448 * PAGE;
    SmallSkips();
    hide GrowPages, Skips, NodesOf, AllMapped, MappedBelow;
    SmallMapped();
    assert Align16(n) == n && PagesFor(n) == 449;
    assert FirstFit(h.blocks, n) == 1 by { assert !Fits(h.blocks[0], n); }
    RetryFits(h, n);
    var g := Grown(h, 449);
    assert !Grows(g, n) && Room(g, n) && Room(h, n);
    assert Kmalloc(h, n) == Kmalloc(g, n);
    assert Misses(h, n);
    KmallocMapped(h, n);
  }

  lemma SmallMapped()
    ensures MappedBelow(SmallPool()) && AllMapped(SmallPool())
  {
    hide NodesOf;
    var h, p := SmallPool(), HEAP_START / PAGE;
    forall q: nat | p <= q < p + 64 ensures q in h.mapped {
      assert Upto(p, 64)[q - p] == q;
    }
  }

  /** The frames run out between the 449th page and its table. */
  lemma SmallSkips()
    ensures GrowPages(SmallPool(), 449).ok && Skips(SmallPool(), 449) && PageAligned(SmallPool().end)
  {
    hide Cost, NodesOf, Needs, PageIn;
    var h, p := SmallPool(), HEAP_START / PAGE;
    assert PageAligned(h.end) && h.end / PAGE == p + 64 && p % 512 == 0;
    SmallCost(h, p);
    hide PageAligned, Ahead, SmallPool;
    GrowAffords(h, 449);
    assert Between(h, 449, 448);
    SkipsIs(h, 449);
  }

  lemma SmallCost(h: Heap, p: nat)
    requires h.end / PAGE == p + 64 && p % 512 == 0 && h.pool.tables == NodesOf(p, 3)
    ensures Cost(h.pool.tables, Ahead(h, 448)) == 448 && Cost(h.pool.tables, Ahead(h, 449)) > 449
  {
    hide Cost, NodesOf, Needs;
    var u := Upto(p + 64, 448);
    SameTables(p, 64, 448);
    assert Ahead(h, 448) == u && Ahead(h, 449) == u + [p + 512];
    CostLast(h.pool.tables, u, p + 512);
    NewTable(p);
  }

  function Upto(p: nat, n: nat): seq<nat> { seq<nat>(n, (i: nat) => p + i) }

  /** The 512 pages of a table cost one frame each once it is there. */
  lemma {:induction false} SameTables(p: nat, from: nat, n: nat)
    requires p % 512 == 0 && from + n <= 512
    ensures Cost(NodesOf(p, 3), Upto(p + from, n)) == n && TablesAfter(NodesOf(p, 3), Upto(p + from, n)) == NodesOf(p, 3)
    decreases n
  {
    hide NodesOf, Needs;
    var u := Upto(p + from, n);
    if n == 0 {
      assert u == [];
    } else {
      assert u[0] == p + from && u[1..] == Upto(p + (from + 1), n - 1);
      SameNodes(p, p + from);
      NoNeeds(NodesOf(p, 3), p + from);
      assert NodesOf(p, 3) + NodesOf(p + from, 3) == NodesOf(p, 3);
      SameTables(p, from + 1, n - 1);
    }
  }

  lemma SameNodes(p: nat, q: nat)
    requires p % 512 == 0 && p <= q < p + 512
    ensures NodesOf(q, 3) == NodesOf(p, 3)
  {
    hide NodesOf, Needs;
    DivDiv(p, 512, 512);
    DivDiv(p, 512, 0x4_0000);
    DivDiv(q, 512, 512);
    DivDiv(q, 512, 0x4_0000);
    DivModUnique(q, 512, p / 512, q - p);
    Unrolled({}, p);
    Unrolled({}, q);
  }

  lemma NewTable(p: nat)
    ensures Needs(NodesOf(p, 3), p + 512) >= 1
  {
    Unrolled(NodesOf(p, 3), p + 512);
    Unrolled(NodesOf(p, 3), p);
  }

  // ---- Steps ------------------------------------------------------------------------

  lemma {:induction false} RunKeeps(hs: seq<Heap>, ops: seq<Op>, t: nat)
    requires Run(hs, ops) && Fresh(hs[0]) && t <= |ops|
    ensures HeapInv(hs[t]) && Aligned(hs[t].blocks)
  {
    hide HeapInv, Aligned, Fresh, Legal, Step;
    if t == 0 {
      FreshOk(hs[0]);
    } else {
      RunKeeps(hs, ops, t - 1);
      StepOk(hs[t - 1], ops[t - 1]);
    }
  }

  lemma FreshOk(h: Heap)
    requires Fresh(h)
    ensures HeapInv(h) && Aligned(h.blocks)
  {
    var n := h.total / PAGE;
    assert h.total == n * PAGE && n >= 1;
    hide By8;
    K.InitInv(h, n);
    By8Pages(n);
    By8Of16(HEAP_START);
  }

  lemma StepOk(h: Heap, op: Op)
    requires HeapInv(h) && Aligned(h.blocks) && Legal(h, op)
    ensures HeapInv(Step(h, op)) && Aligned(Step(h, op).blocks)
  {
    hide HeapInv, Aligned, Kmalloc, Kfree, Room, Gained;
    match op
    case Malloc(n) => KmallocOk(h, n); KmallocAligned(h, n);
    case Release(ptr) =>
      if Owner(h.blocks, ptr) < |h.blocks| {
        FreeOk(h, Owner(h.blocks, ptr));
        FreeAligned(h, Owner(h.blocks, ptr));
      }
    case Others(pool) => SameInv(h, Step(h, op));
    case Write(_, _) =>
  }

  lemma StepLive(h: Heap, op: Op, b: Block)
    requires HeapInv(h) && Legal(h, op) && b in Live(h.blocks)
    requires op.Release? ==> op.ptr != b.addr + HEADER
    ensures b in Live(Step(h, op).blocks)
  {
    hide HeapInv, Kmalloc, Kfree, Room;
    match op
    case Malloc(n) =>
      KmallocOk(h, n);
      var (h', p) := Kmalloc(h, n);
      if p != 0 { var c :| Gained(h, h', c, p, Align16(n)); }
    case Release(ptr) =>
      if Owner(h.blocks, ptr) < |h.blocks| { FreeOk(h, Owner(h.blocks, ptr)); }
    case Others(_) =>
    case Write(_, _) =>
  }

  lemma LiveDisjoint(h: Heap)
    requires HeapInv(h)
    ensures forall a, b :: a in Live(h.blocks) && b in Live(h.blocks) && a != b ==> Stop(a) <= b.addr || Stop(b) <= a.addr
    ensures forall a :: a in Live(h.blocks) ==> HEAP_START <= a.addr && Stop(a) <= h.end
  {
    forall a, b | a in Live(h.blocks) && b in Live(h.blocks) && a != b ensures Stop(a) <= b.addr || Stop(b) <= a.addr {
      var i :| 0 <= i < |h.blocks| && h.blocks[i] == a;
      var j :| 0 <= j < |h.blocks| && h.blocks[j] == b;
      if i < j { Disjoint(h.blocks, h.end, i, j); } else { Disjoint(h.blocks, h.end, j, i); }
    }
    forall a | a in Live(h.blocks) ensures HEAP_START <= a.addr && Stop(a) <= h.end {
      var i :| 0 <= i < |h.blocks| && h.blocks[i] == a;
      Within(h.blocks, h.end, i);
    }
  }

  // ---- Alignment --------------------------------------------------------------------

  lemma By8Sum(a: nat, b: nat)
    requires By8(a) && By8(b)
    ensures By8(a + b) && By8(a + HEADER) && By8(a + HEADER + b)
    ensures a >= b ==> By8(a - b)
    ensures a >= b + HEADER ==> By8(a - b - HEADER)
  {
    var i, j := a / 8, b / 8;
    assert a == 8 * i && b == 8 * j;
  }

  lemma By8Pages(n: nat)
    ensures By8(n * PAGE) && (n > 0 ==> By8(n * PAGE - HEADER))
  {
    assert n * PAGE == 8 * (n * 512);
  }

  lemma By8Of16(n: nat)
    requires n % 16 == 0
    ensures By8(n)
  {
  }

  lemma TakeAligned(bs: seq<Block>, i: nat, size: nat)
    requires Aligned(bs) && i < |bs| && Fits(bs[i], size) && By8(size)
    ensures Aligned(Take(bs, i, size))
  {
    hide By8;
    By8Sum(bs[i].addr, size);
    if bs[i].size >= size + HEADER + MIN_BLOCK {
      By8Sum(bs[i].size, size);
      SplitShape(bs, i, size);
    }
  }

  lemma {:induction false} KmallocAligned(h: Heap, n: nat)
    requires HeapInv(h) && Room(h, n) && Aligned(h.blocks) && n < U64
    ensures Aligned(Kmalloc(h, n).0.blocks)
    decreases h.pool.frames
  {
    hide Ordered, Aligned, HeapInv, Take, Align16, PagesFor, By8, GrowPages;
    if n != 0 {
      var size := Align16(n);
      AlignCovers(n);
      By8Of16(size);
      var i := FirstFit(h.blocks, size);
      if i < |h.blocks| {
        TakeAligned(h.blocks, i, size);
      } else if GrowPages(h, PagesFor(size)).ok {
        GrownOk(h, PagesFor(size));
        GrownAligned(h, PagesFor(size));
        KmallocAligned(Grown(h, PagesFor(size)), size);
      }
    }
  }

  lemma GrownAligned(h: Heap, pages: nat)
    requires HeapInv(h) && Aligned(h.blocks) && pages > 0 && GrowPages(h, pages).ok
    ensures Aligned(Grown(h, pages).blocks)
  {
    hide By8, GrowPages;
    By8Pages(pages);
    var q := h.end / PAGE;
    assert h.end == q * PAGE;
    By8Pages(q);
  }

  lemma {:induction false} CoalesceAligned(bs: seq<Block>)
    requires Aligned(bs)
    ensures Aligned(Coalesce(bs))
    decreases |bs|
  {
    hide By8;
    if |bs| >= 2 {
      if bs[0].free && bs[1].free {
        By8Sum(bs[0].size, bs[1].size);
        CoalesceAligned(Merged(bs));
      } else {
        CoalesceAligned(bs[1..]);
      }
    }
  }

  lemma FreeAligned(h: Heap, i: nat)
    requires Aligned(h.blocks) && i < |h.blocks|
    ensures Aligned(Kfree(h, i).blocks)
  {
    CoalesceAligned(h.blocks[i := h.blocks[i].(free := true)]);
  }
}
