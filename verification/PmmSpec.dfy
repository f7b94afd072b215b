/**
 The frame allocator of mm/pmm.c as a value: the bitmap, the 16-bit reference
 counts and the two page counters, with one function per entry point.  The
 class in Pmm.dfy implements these functions; the virtual-memory model in
 Vmm.dfy is built on them.
 */
module PmmSpec {
  import opened Sizes

  /** Number of frames that have a reference count (1 GiB of RAM). */
  const MAX_PAGES: nat := 262144
  /** Reference counts are 16-bit and wrap. */
  const REF_MODULUS: nat := 65536

  /** used[i] is bit i of the bitmap: frame i is not available. */
  datatype Pmm = Pmm(used: seq<bool>, rc: seq<nat>, usedPages: nat, usablePages: nat)

  /** Number of clear bits. */
  function CountFree(used: seq<bool>): nat
  {
    if used == [] then 0
    else CountFree(used[..|used| - 1]) + (if used[|used| - 1] then 0 else 1)
  }

  /** The free-page count reported by pmm_get_free_page_count, a 64-bit subtraction. */
  function FreePageCount(p: Pmm): int
  {
    if p.usedPages <= p.usablePages then p.usablePages - p.usedPages
    else p.usablePages - p.usedPages + U64
  }

  /** 64-bit increment and decrement of used_pages. */
  function Inc64(u: nat): nat { if u + 1 == U64 then 0 else u + 1 }
  function Dec64(u: nat): nat { if u == 0 then U64 - 1 else u - 1 }

  /** What every operation keeps: frame 0 is never free, a free frame has no
      references, and the reported free-page count is the number of clear bits. */
  ghost predicate PmmOk(p: Pmm)
  {
    (
      && 0 < |p.used| < U64
      && p.used[0]
      && |p.rc| == MAX_PAGES
      && p.usedPages < U64 && p.usablePages < U64
      && (forall f :: 0 <= f < MAX_PAGES ==> p.rc[f] < REF_MODULUS)
      && (forall f :: 0 < f < |p.used| && f < MAX_PAGES && !p.used[f] ==> p.rc[f] == 0)
      && FreePageCount(p) == CountFree(p.used)
    ) == true
  }

  /** Lowest clear bit at or above i, or |used| when there is none. */
  function FirstFree(used: seq<bool>, i: nat): (r: nat)
    requires i <= |used|
    ensures i <= r <= |used|
    ensures r < |used| ==> !used[r]
    ensures forall j :: i <= j < r ==> used[j]
    decreases |used| - i
  {
    if i == |used| || !used[i] then i else FirstFree(used, i + 1)
  }

  /** pmm_alloc_page: the frame taken, or 0 when none is free. */
  function Alloc(p: Pmm): (Pmm, nat)
    requires 0 < |p.used| && |p.rc| == MAX_PAGES
  {
    var f := FirstFree(p.used, 1);
    if f == |p.used| then (p, 0)
    else (p.(used := p.used[f := true],
             rc := if f < MAX_PAGES then p.rc[f := 1] else p.rc,
             usedPages := Inc64(p.usedPages)), f)
  }

  /** pmm_free_page. */
  function Free(p: Pmm, f: nat): Pmm
    requires |p.rc| == MAX_PAGES
  {
    if f == 0 || f >= |p.used| || !p.used[f] then p
    else p.(used := p.used[f := false],
            rc := if f < MAX_PAGES then p.rc[f := 0] else p.rc,
            usedPages := Dec64(p.usedPages))
  }

  /** pmm_page_ref. */
  function Ref(p: Pmm, f: nat): Pmm
    requires |p.rc| == MAX_PAGES
  {
    if f >= MAX_PAGES then p else p.(rc := p.rc[f := (p.rc[f] + 1) % REF_MODULUS])
  }

  /** pmm_page_unref: the last reference gives the frame back. */
  function Unref(p: Pmm, f: nat): Pmm
    requires |p.rc| == MAX_PAGES
  {
    if f >= MAX_PAGES || f == 0 || p.rc[f] == 0 then p
    else
      var q := p.(rc := p.rc[f := p.rc[f] - 1]);
      if p.rc[f] == 1 && f < |p.used| && p.used[f]
      then q.(used := p.used[f := false], usedPages := Dec64(p.usedPages))
      else q
  }

  /** pmm_page_refcount. */
  function RefCount(p: Pmm, f: nat): nat
    requires |p.rc| == MAX_PAGES
  {
    if f >= MAX_PAGES then 0 else p.rc[f]
  }

  lemma {:induction false} CountFreeUpdate(used: seq<bool>, i: nat, b: bool)
    requires i < |used|
    ensures CountFree(used[i := b]) ==
            CountFree(used) + (if used[i] then 1 else 0) - (if b then 1 else 0)
  {
    var n := |used| - 1;
    if i < n {
      CountFreeUpdate(used[..n], i, b);
      assert used[i := b][..n] == used[..n][i := b];
    } else {
      assert used[i := b][..n] == used[..n];
    }
  }

  lemma {:induction false} CountFreeBound(used: seq<bool>)
    ensures CountFree(used) <= |used|
    ensures |used| > 0 && used[0] ==> CountFree(used) < |used|
    ensures CountFree(used) > 0 <==> exists i :: 0 <= i < |used| && !used[i]
  {
    if used != [] {
      var n := |used| - 1;
      CountFreeBound(used[..n]);
      if CountFree(used[..n]) > 0 {
        var i :| 0 <= i < |used[..n]| && !used[..n][i];
        assert !used[i];
      }
      if i :| 0 <= i < |used| && !used[i] {
        assert i < n ==> !used[..n][i];
      }
    }
  }

  /** Counts of all frames but f are the same. */
  predicate OnlyCount(p: Pmm, q: Pmm, f: nat)
    requires |p.rc| == MAX_PAGES
  {
    |q.rc| == MAX_PAGES && q.usablePages == p.usablePages && forall g :: 0 <= g < MAX_PAGES && g != f ==> q.rc[g] == p.rc[g]
  }

  /** pmm_alloc_page takes the lowest free frame, gives it one reference, moves
      the reported count by one and fails exactly when the count is zero. */
  lemma AllocOk(p: Pmm)
    requires PmmOk(p)
    ensures var (q, f) := Alloc(p);
            && PmmOk(q) && f < |p.used| && OnlyCount(p, q, f)
            && (f == 0 <==> FreePageCount(p) == 0)
            && (f == 0 ==> q == p)
            && (f != 0 ==>
                  && !p.used[f] && (forall j :: 1 <= j < f ==> p.used[j])
                  && q.used == p.used[f := true]
                  && FreePageCount(q) == FreePageCount(p) - 1
                  && RefCount(q, f) == (if f < MAX_PAGES then 1 else 0))
  {
    hide CountFree;
    var f := FirstFree(p.used, 1);
    CountFreeBound(p.used);
    if f < |p.used| {
      CountFreeUpdate(p.used, f, true);
    }
  }

  /** pmm_free_page clears the bit of a frame in use other than 0 and its count, and the
      reported count grows by one; on any other frame it does nothing. */
  lemma FreeOk(p: Pmm, f: nat)
    requires PmmOk(p)
    ensures var q := Free(p, f);
            && PmmOk(q) && OnlyCount(p, q, f)
            && if 0 < f < |p.used| && p.used[f] then
                 && q.used == p.used[f := false] && RefCount(q, f) == 0 && FreePageCount(q) == FreePageCount(p) + 1
               else q == p
  {
    hide CountFree;
    if 0 < f < |p.used| && p.used[f] {
      CountFreeUpdate(p.used, f, false);
      CountFreeBound(p.used[f := false]);
    }
  }

  /** pmm_page_unref takes one reference away; exactly the last one of a frame in use
      clears its bit, and the reported count grows by one. */
  lemma UnrefOk(p: Pmm, f: nat)
    requires PmmOk(p)
    ensures var q := Unref(p, f);
            && PmmOk(q) && OnlyCount(p, q, f)
            && (f == 0 || RefCount(p, f) == 0 ==> q == p)
            && (f != 0 && RefCount(p, f) > 0 ==> RefCount(q, f) == RefCount(p, f) - 1)
            && if f != 0 && RefCount(p, f) == 1 && f < |p.used| && p.used[f] then
                 q.used == p.used[f := false] && FreePageCount(q) == FreePageCount(p) + 1
               else q.used == p.used && FreePageCount(q) == FreePageCount(p)
  {
    hide CountFree;
    if 0 < f < |p.used| && p.used[f] {
      CountFreeUpdate(p.used, f, false);
      CountFreeBound(p.used[f := false]);
    }
  }

  /** Giving back the frame just allocated, either way, restores the allocator. */
  lemma AllocUndone(p: Pmm)
    requires PmmOk(p)
    ensures var (q, f) := Alloc(p);
            |q.rc| == MAX_PAGES && (f != 0 ==> Free(q, f) == p && (f < MAX_PAGES ==> Unref(q, f) == p))
  {
    hide CountFree;
    var (q, f) := Alloc(p);
    if f != 0 {
      assert q.used[f := false] == p.used;
      assert f < MAX_PAGES ==> q.rc[f := 0] == p.rc;
    }
  }

  /** A reference taken and given back restores it, unless the count wraps or was 0. */
  lemma RefUndone(p: Pmm, f: nat)
    requires PmmOk(p)
    ensures |Ref(p, f).rc| == MAX_PAGES
    ensures Unref(Ref(p, f), f) == p <==> f >= MAX_PAGES || (f != 0 && p.rc[f] < 65535 && (p.rc[f] > 0 || f >= |p.used| || !p.used[f]))
  {
    hide CountFree;
    var q := Ref(p, f);
    if f < MAX_PAGES {
      assert q.rc[f := p.rc[f]] == p.rc;
    }
  }

  /** Taking a reference moves one count and nothing else; the allocator stays consistent
      exactly when the frame is not a free one. */
  lemma RefOk(p: Pmm, f: nat)
    requires PmmOk(p)
    ensures var q := Ref(p, f);
            && q.used == p.used && q.usedPages == p.usedPages && q.usablePages == p.usablePages
            && (forall g :: 0 <= g < MAX_PAGES && g != f ==> q.rc[g] == p.rc[g])
            && (PmmOk(q) <==> f == 0 || f >= |p.used| || f >= MAX_PAGES || p.used[f])
  {
    var q := Ref(p, f);
    if 0 < f < |p.used| && f < MAX_PAGES && !p.used[f] {
      assert q.rc[f] == 1;
    }
  }

  /** The counters are a function of the bitmap. */
  lemma CountersFollowBitmap(p: Pmm, q: Pmm)
    requires PmmOk(p) && PmmOk(q)
    requires p.used == q.used && p.usablePages == q.usablePages
    ensures p.usedPages == q.usedPages
  {
  }

  // ---- Contiguous frames -----------------------------------------------------------

  /** Frames i .. i + count are free, and frame 0 is not among them. */
  predicate FreeRun(used: seq<bool>, i: nat, count: nat)
  {
    1 <= i && i + count <= |used| && forall j :: i <= j < i + count ==> !used[j]
  }

  function TakeOne(p: Pmm, f: nat): Pmm
    requires f < |p.used| && |p.rc| == MAX_PAGES
  {
    p.(used := p.used[f := true],
       rc := if f < MAX_PAGES then p.rc[f := 1] else p.rc,
       usedPages := Inc64(p.usedPages))
  }

  /** The allocation loop of pmm_alloc_pages. */
  function TakeRun(p: Pmm, i: nat, count: nat): (q: Pmm)
    requires i + count <= |p.used| && |p.rc| == MAX_PAGES
    ensures |q.used| == |p.used| && |q.rc| == MAX_PAGES && q.usablePages == p.usablePages
    ensures forall j :: 0 <= j < |p.used| ==> q.used[j] == (i <= j < i + count || p.used[j])
    ensures forall j :: 0 <= j < MAX_PAGES ==> q.rc[j] == if i <= j < i + count then 1 else p.rc[j]
  {
    if count == 0 then p else TakeOne(TakeRun(p, i, count - 1), i + count - 1)
  }

  /** A run of allocations keeps the allocator consistent and moves the reported
      count by its length. */
  lemma {:induction false} TakeRunOk(p: Pmm, i: nat, count: nat)
    requires PmmOk(p) && FreeRun(p.used, i, count)
    ensures PmmOk(TakeRun(p, i, count))
    ensures FreePageCount(TakeRun(p, i, count)) == FreePageCount(p) - count
  {
    if count > 0 {
      TakeRunOk(p, i, count - 1);
      var q := TakeRun(p, i, count - 1);
      TakeOneOk(q, i + count - 1);
    }
  }

  lemma TakeOneOk(q: Pmm, f: nat)
    requires PmmOk(q) && 0 < f < |q.used| && !q.used[f]
    ensures PmmOk(TakeOne(q, f)) && FreePageCount(TakeOne(q, f)) == FreePageCount(q) - 1
  {
    CountFreeUpdate(q.used, f, true);
    CountFreeBound(q.used);
  }
}
