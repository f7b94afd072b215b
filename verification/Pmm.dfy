/**
 mm/pmm.c and lib/bitmap.h: the frame allocator over a bitmap of bytes and an
 array of 16-bit counts, proved against the functions of PmmSpec.
 */
module Pmm {
  import opened Sizes
  import opened PmmSpec

  // ---- Bits of bytes ------------------------------------------------------------

  predicate ByteBit(b: bv8, k: nat)
    requires k < 8
  {
    b & ((1 as bv8) << k) != 0
  }

  lemma SetByteBit(b: bv8, k: nat, j: nat)
    requires k < 8 && j < 8
    ensures ByteBit(b | ((1 as bv8) << k), j) == (ByteBit(b, j) || j == k)
  {
    Powers(k);
    Powers(j);
  }

  lemma ClearByteBit(b: bv8, k: nat, j: nat)
    requires k < 8 && j < 8
    ensures ByteBit(b & !((1 as bv8) << k), j) == (ByteBit(b, j) && j != k)
  {
    Powers(k);
    Powers(j);
  }

  lemma Powers(k: nat)
    requires k < 8
    ensures (1 as bv8) << k == if k == 0 then 1 else if k == 1 then 2 else if k == 2 then 4 else if k == 3 then 8
                               else if k == 4 then 16 else if k == 5 then 32 else if k == 6 then 64 else 128
  {
  }

  predicate Bit(bytes: seq<bv8>, i: nat)
    requires i < 8 * |bytes|
  {
    ByteBit(bytes[i / 8], i % 8)
  }

  lemma SetBit(a: seq<bv8>, b: seq<bv8>, bit: nat, i: nat)
    requires bit < 8 * |a| && i < 8 * |a| && b == a[bit / 8 := a[bit / 8] | ((1 as bv8) << (bit % 8))]
    ensures Bit(b, i) == (i == bit || Bit(a, i))
  {
    hide ByteBit;
    SetByteBit(a[bit / 8], bit % 8, i % 8);
    assert i / 8 == bit / 8 && i % 8 == bit % 8 <==> i == bit;
  }

  lemma ClearBit(a: seq<bv8>, b: seq<bv8>, bit: nat, i: nat)
    requires bit < 8 * |a| && i < 8 * |a| && b == a[bit / 8 := a[bit / 8] & !((1 as bv8) << (bit % 8))]
    ensures Bit(b, i) == (i != bit && Bit(a, i))
  {
    hide ByteBit;
    ClearByteBit(a[bit / 8], bit % 8, i % 8);
    assert i / 8 == bit / 8 && i % 8 == bit % 8 <==> i == bit;
  }

  /** bitmap_set. */
  method BitmapSet(bitmap: array<bv8>, bit: nat)
    requires bit < 8 * bitmap.Length
    modifies bitmap
    ensures forall i :: 0 <= i < 8 * bitmap.Length ==> Bit(bitmap[..], i) == (i == bit || Bit(old(bitmap[..]), i))
  {
    hide Bit;
    bitmap[bit / 8] := bitmap[bit / 8] | ((1 as bv8) << (bit % 8));
    forall i | 0 <= i < 8 * bitmap.Length ensures Bit(bitmap[..], i) == (i == bit || Bit(old(bitmap[..]), i)) {
      SetBit(old(bitmap[..]), bitmap[..], bit, i);
    }
  }

  /** bitmap_clear. */
  method BitmapClear(bitmap: array<bv8>, bit: nat)
    requires bit < 8 * bitmap.Length
    modifies bitmap
    ensures forall i :: 0 <= i < 8 * bitmap.Length ==> Bit(bitmap[..], i) == (i != bit && Bit(old(bitmap[..]), i))
  {
    hide Bit;
    bitmap[bit / 8] := bitmap[bit / 8] & !((1 as bv8) << (bit % 8));
    forall i | 0 <= i < 8 * bitmap.Length ensures Bit(bitmap[..], i) == (i != bit && Bit(old(bitmap[..]), i)) {
      ClearBit(old(bitmap[..]), bitmap[..], bit, i);
    }
  }

  // ---- The allocator ---------------------------------------------------------------

  /** An entry of the boot loader's memory map. */
  datatype MemEntry = MemEntry(base: nat, length: nat, usable: bool)

  function FirstPage(e: MemEntry): nat { e.base / PAGE }

  function EndPage(e: MemEntry): nat { e.base / PAGE + e.length / PAGE }

  predicate InEntry(e: MemEntry, f: nat) { e.usable && FirstPage(e) <= f < EndPage(e) }

  /** Usable regions are page-aligned and do not overlap; nothing wraps. */
  predicate MapOk(es: seq<MemEntry>)
  {
    && (forall k :: 0 <= k < |es| ==> es[k].base + es[k].length < U64)
    && (forall k :: 0 <= k < |es| && es[k].usable ==> es[k].base % PAGE == 0 && es[k].length % PAGE == 0)
    && (forall k, l :: 0 <= k < l < |es| && es[k].usable && es[l].usable ==> Apart(es[k], es[l]))
  }

  predicate Apart(a: MemEntry, b: MemEntry) { EndPage(a) <= FirstPage(b) || EndPage(b) <= FirstPage(a) }

  function PagesFor(size: nat): nat { (size + PAGE - 1) / PAGE }

  /** The end of the highest region. */
  function Top(es: seq<MemEntry>): nat
  {
    if es == [] then 0
    else
      var h, e := Top(es[..|es| - 1]), es[|es| - 1];
      if e.base + e.length > h then e.base + e.length else h
  }

  /** Bytes of a bitmap for all memory. */
  function BitmapSize(es: seq<MemEntry>): nat { (Top(es) / PAGE + 7) / 8 }

  predicate Hosts(e: MemEntry, size: nat) { e.usable && e.length >= size }

  /** Region i gave up its first pages. */
  predicate Rehomed(es: seq<MemEntry>, es': seq<MemEntry>, i: nat, pages: nat)
  {
    && i < |es| && es[i].usable && pages * PAGE <= es[i].length
    && es' == es[i := MemEntry(es[i].base + pages * PAGE, es[i].length - pages * PAGE, true)]
  }

  /** Frame f lies in one of the first n usable regions. */
  ghost predicate InFirst(es: seq<MemEntry>, n: nat, f: nat)
    requires n <= |es|
  {
    exists k :: 0 <= k < n && InEntry(es[k], f)
  }

  class FrameAllocator {
    var bitmap: array<bv8>
    var maxPageIndex: nat
    var usablePages: nat
    var usedPages: nat
    var refcount: array<nat>
    /** The bits of the bitmap that stand for frames. */
    ghost var used: seq<bool>

    ghost predicate Shape()
      reads this, bitmap
    {
      && maxPageIndex == |used| <= 8 * bitmap.Length && refcount.Length == MAX_PAGES
      && bitmap as object != refcount as object
      && forall i :: 0 <= i < |used| ==> used[i] == Bit(bitmap[..], i)
    }

    ghost function View(): Pmm
      reads this, refcount
    {
      Pmm(used, refcount[..], usedPages, usablePages)
    }

    ghost predicate Valid()
      reads this, bitmap, refcount
    {
      Shape() && PmmOk(View())
    }

    /** pmm_init.  home is the region that gave up its first pages to the bitmap. */
    method Init(entries: array<MemEntry>) returns (ok: bool, ghost home: nat)
      requires MapOk(entries[..])
      requires exists k :: 0 <= k < entries.Length && entries[k].base + entries[k].length >= PAGE
      modifies this, entries
      ensures ok ==> Valid() && fresh(bitmap) && fresh(refcount)
      ensures ok ==> forall f :: 0 <= f < maxPageIndex ==> (!used[f] <==> f >= 1 && InFirst(entries[..], entries.Length, f))
      ensures ok ==> Rehomed(old(entries[..]), entries[..], home, PagesFor(bitmap.Length))
      ensures ok ==> var first := FirstPage(old(entries[..])[home]);
                     forall f :: first <= f < first + PagesFor(bitmap.Length) && f < maxPageIndex ==> used[f]
      ensures ok ==> maxPageIndex == Top(old(entries[..])) / PAGE && bitmap.Length == BitmapSize(old(entries[..]))
      ensures ok <==> exists k :: 0 <= k < entries.Length && Hosts(old(entries[..])[k], BitmapSize(old(entries[..])))
      ensures ok ==> Hosts(old(entries[..])[home], BitmapSize(old(entries[..])))
      ensures ok ==> forall k :: 0 <= k < home ==> !Hosts(old(entries[..])[k], BitmapSize(old(entries[..])))
      ensures !ok ==> entries[..] == old(entries[..])
    {
      hide Bit, PmmOk, CountFree, Top, Valid, InFirst, Rehomed;
      var highest := Highest(entries);
      maxPageIndex := highest / PAGE;
      var size := (maxPageIndex + 7) / 8;
      var i := FindHome(entries, size);
      home := i;
      ok := i < entries.Length;
      if ok {
        Build(entries, i, size, highest);
      }
    }

    /** The rest of pmm_init once region i has to hold the bitmap. */
    method Build(entries: array<MemEntry>, i: nat, size: nat, ghost highest: nat)
      requires MapOk(entries[..]) && i < entries.Length && Hosts(entries[i], size)
      requires forall k :: 0 <= k < entries.Length ==> entries[k].base + entries[k].length <= highest
      requires 0 < maxPageIndex == highest / PAGE < U64 && maxPageIndex <= 8 * size
      modifies this, entries
      ensures Valid() && fresh(bitmap) && fresh(refcount) && maxPageIndex == old(maxPageIndex) && bitmap.Length == size
      ensures forall f :: 0 <= f < maxPageIndex ==> (!used[f] <==> f >= 1 && InFirst(entries[..], entries.Length, f))
      ensures Rehomed(old(entries[..]), entries[..], i, PagesFor(size))
      ensures var first := FirstPage(old(entries[..])[i]);
              forall f :: first <= f < first + PagesFor(size) && f < maxPageIndex ==> used[f]
    {
      hide Bit, PmmOk, CountFree;
      ghost var es := entries[..];
      NewBitmap(size);
      var pages := (size + PAGE - 1) / PAGE;
      HomeFits(entries[i], size);
      entries[i] := MemEntry(entries[i].base + pages * PAGE, entries[i].length - pages * PAGE, true);
      HomeMapOk(es, entries[..], i, pages);
      HomeKept(es, entries[..], i, pages);
      hide MapOk, InFirst;
      MarkUsable(entries, highest);
      GuardPageZero();
      InitDone();
    }

    /** The bitmap with every bit set, and no references. */
    method NewBitmap(size: nat)
      requires maxPageIndex <= 8 * size
      modifies this
      ensures Shape() && fresh(bitmap) && fresh(refcount) && maxPageIndex == old(maxPageIndex) && bitmap.Length == size
      ensures usablePages == 0 && usedPages == 0 && CountFree(used) == 0
      ensures forall f :: 0 <= f < |used| ==> used[f]
      ensures forall f :: 0 <= f < MAX_PAGES ==> refcount[f] == 0
    {
      hide Bit;
      bitmap := new bv8[size](_ => 0xFF);
      refcount := new nat[MAX_PAGES](_ => 0);
      used := seq(maxPageIndex, _ => true);
      usablePages, usedPages := 0, 0;
      OnesAreSet(bitmap[..]);
      NoneFree(used);
    }

    /** Pass 1: the end of the highest region. */
    static method Highest(entries: array<MemEntry>) returns (h: nat)
      requires MapOk(entries[..])
      ensures forall k :: 0 <= k < entries.Length ==> entries[k].base + entries[k].length <= h
      ensures h < U64 && h == Top(entries[..])
    {
      h := 0;
      for i := 0 to entries.Length
        invariant h < U64 && h == Top(entries[..i])
        invariant forall k :: 0 <= k < i ==> entries[k].base + entries[k].length <= h
      {
        var top := entries[i].base + entries[i].length;
        assert entries[..i + 1][..i] == entries[..i];
        if top > h {
          h := top;
        }
      }
      assert entries[..entries.Length] == entries[..];
    }

    /** Pass 2: the first usable region that can hold the bitmap. */
    static method FindHome(entries: array<MemEntry>, size: nat) returns (i: nat)
      ensures i <= entries.Length && (i < entries.Length ==> Hosts(entries[i], size))
      ensures forall k :: 0 <= k < i ==> !Hosts(entries[k], size)
    {
      i := 0;
      while i < entries.Length && !(entries[i].usable && entries[i].length >= size)
        invariant i <= entries.Length && forall k :: 0 <= k < i ==> !Hosts(entries[k], size)
      {
        i := i + 1;
      }
    }

    /** Pass 3: clear the bits of the usable regions and count them. */
    method MarkUsable(entries: array<MemEntry>, ghost highest: nat)
      requires Shape() && MapOk(entries[..]) && bitmap as object != entries && refcount as object != entries && this as object != entries
      requires forall k :: 0 <= k < entries.Length ==> entries[k].base + entries[k].length <= highest
      requires maxPageIndex == highest / PAGE && usablePages == 0 && CountFree(used) == 0
      requires forall f :: 0 <= f < |used| ==> used[f]
      modifies this`usablePages, this`used, bitmap
      ensures Shape() && CountFree(used) == usablePages
      ensures forall f :: 0 <= f < |used| ==> (!used[f] <==> InFirst(entries[..], entries.Length, f))
    {
      hide Bit, CountFree;
      ghost var es := entries[..];
      for i := 0 to entries.Length
        invariant Shape() && CountFree(used) == usablePages && entries[..] == es
        invariant forall f :: 0 <= f < |used| ==> (!used[f] <==> InFirst(es, i, f))
      {
        if entries[i].usable {
          EntryBelow(es[i], highest);
          var start := entries[i].base / PAGE;
          var count := entries[i].length / PAGE;
          forall f | start <= f < start + count ensures !InFirst(es, i, f) {
            OnlyHere(es, i, f);
          }
          usablePages := usablePages + count;
          ClearRange(start, count);
        }
        forall f | 0 <= f < |used| ensures InFirst(es, i + 1, f) <==> InFirst(es, i, f) || InEntry(es[i], f) {
          FirstStep(es, i, f);
        }
      }
    }

    method ClearRange(start: nat, count: nat)
      requires Shape() && start + count <= |used| && forall f :: start <= f < start + count ==> used[f]
      modifies this`used, bitmap
      ensures Shape() && |used| == |old(used)| && CountFree(used) == CountFree(old(used)) + count
      ensures forall f :: 0 <= f < |used| ==> (used[f] <==> old(used)[f] && !(start <= f < start + count))
    {
      hide Bit, CountFree;
      for p := 0 to count
        invariant Shape() && |used| == |old(used)| && CountFree(used) == CountFree(old(used)) + p
        invariant forall f :: 0 <= f < |used| ==> (used[f] <==> old(used)[f] && !(start <= f < start + p))
      {
        CountFreeUpdate(used, start + p, false);
        BitmapClear(bitmap, start + p);
        used := used[start + p := false];
      }
    }

    /** Frame 0 is never handed out. */
    method GuardPageZero()
      requires Shape() && |used| > 0 && CountFree(used) == usablePages
      modifies this`usedPages, this`used, bitmap
      ensures Shape() && |used| == |old(used)| && used[0] && CountFree(used) == usablePages - usedPages && 0 <= usedPages <= 1
      ensures forall f :: 1 <= f < |used| ==> used[f] == old(used)[f]
    {
      hide Bit, CountFree;
      if !Bit(bitmap[..], 0) {
        CountFreeUpdate(used, 0, true);
        BitmapSet(bitmap, 0);
        used := used[0 := true];
        usedPages := 1;
      } else {
        usedPages := 0;
      }
    }

    lemma InitDone()
      requires Shape() && 0 < |used| < U64 && used[0] && usedPages <= 1 && CountFree(used) == usablePages - usedPages
      requires forall f :: 0 <= f < MAX_PAGES ==> refcount[f] == 0
      ensures Valid()
    {
      CountFreeBound(used);
    }

    /** pmm_alloc_page; 0 when out of memory. */
    method AllocPage() returns (addr: nat)
      requires Valid()
      modifies this, bitmap, refcount
      ensures Valid() && bitmap == old(bitmap) && refcount == old(refcount)
      ensures var (q, f) := Alloc(old(View())); View() == q && addr == f * PAGE
    {
      hide Bit;
      ghost var p := View();
      AllocOk(p);
      var i := 1;
      while i < maxPageIndex
        invariant 1 <= i <= maxPageIndex
        invariant Valid() && View() == p && bitmap == old(bitmap) && refcount == old(refcount)
        invariant forall j :: 1 <= j < i ==> p.used[j]
      {
        if !Bit(bitmap[..], i) {
          FirstFreeIs(p.used, 1, i);
          TakeFrame(i);
          return i * PAGE;
        }
        i := i + 1;
      }
      FirstFreeIs(p.used, 1, i);
      return 0;
    }

    /** A frame becomes used with one reference. */
    method TakeFrame(f: nat)
      requires Shape() && f < maxPageIndex
      modifies this`used, this`usedPages, bitmap, refcount
      ensures Shape() && View() == TakeOne(old(View()), f)
    {
      hide Bit;
      BitmapSet(bitmap, f);
      used := used[f := true];
      usedPages := Inc64(usedPages);
      if f < MAX_PAGES {
        refcount[f] := 1;
      }
      assert refcount[..] == if f < MAX_PAGES then old(refcount[..])[f := 1] else old(refcount[..]);
    }

    /** pmm_free_page. */
    method FreePage(addr: nat)
      requires Valid()
      modifies this, bitmap, refcount
      ensures Valid() && bitmap == old(bitmap) && refcount == old(refcount)
      ensures View() == Free(old(View()), addr / PAGE)
    {
      hide Bit;
      ghost var p := View();
      var page := addr / PAGE;
      FreeOk(p, page);
      if page == 0 || page >= maxPageIndex {
        return;
      }
      if Bit(bitmap[..], page) {
        BitmapClear(bitmap, page);
        used := used[page := false];
        usedPages := Dec64(usedPages);
        if page < MAX_PAGES { refcount[page] := 0; }
        assert refcount[..] == if page < MAX_PAGES then p.rc[page := 0] else p.rc;
      }
    }

    /** pmm_alloc_pages: the lowest run of count free frames, 0 only when there is
        none.  The skip-ahead in the search misses nothing. */
    method AllocPages(count: nat) returns (addr: nat)
      requires Valid() && maxPageIndex + count < U64
      modifies this, bitmap, refcount
      ensures Valid() && bitmap == old(bitmap) && refcount == old(refcount)
      ensures addr == 0 ==> View() == old(View())
      ensures addr == 0 && count > 0 ==> forall i :: !FreeRun(old(View()).used, i, count)
      ensures addr != 0 ==> addr % PAGE == 0 && FreeRun(old(View()).used, addr / PAGE, count)
      ensures addr != 0 ==> forall i :: 0 <= i < addr / PAGE ==> !FreeRun(old(View()).used, i, count)
      ensures addr != 0 ==> View() == TakeRun(old(View()), addr / PAGE, count)
    {
      hide Bit, TakeRun, PmmOk, Alloc, FreeRun, Shape;
      ghost var p := View();
      if count == 0 {
        return 0;
      }
      if count == 1 {
        addr := AllocPage();
        OneIsRun(p);
        return;
      }
      var i := FindRun(count);
      if i == 0 {
        return 0;
      }
      TakeFrames(i, count);
      return i * PAGE;
    }

    /** The search of pmm_alloc_pages: a used frame moves the start behind itself. */
    method FindRun(count: nat) returns (i: nat)
      requires Valid() && count > 0
      ensures i == 0 ==> forall k :: !FreeRun(View().used, k, count)
      ensures i != 0 ==> FreeRun(View().used, i, count) && forall k :: 0 <= k < i ==> !FreeRun(View().used, k, count)
    {
      hide Bit;
      i := 1;
      while i < maxPageIndex
        invariant 1 <= i && (i <= maxPageIndex || maxPageIndex == 0)
        invariant forall k :: 0 <= k < i ==> !FreeRun(used, k, count)
        decreases maxPageIndex - i
      {
        var found := true;
        var base := i;
        var j := 0;
        while j < count && base + j < maxPageIndex
          invariant 0 <= j <= count && base + j <= maxPageIndex
          invariant found && i == base
          invariant forall k :: base <= k < base + j ==> !used[k]
        {
          if Bit(bitmap[..], base + j) {
            i := base + j;
            found := false;
            break;
          }
          j := j + 1;
        }
        if found && i + count <= maxPageIndex {
          return;
        }
        assert forall k :: base <= k <= i ==> !FreeRun(used, k, count);
        i := i + 1;
      }
      i := 0;
    }

    /** The loop of pmm_alloc_pages that marks the frames it found. */
    method TakeFrames(i: nat, count: nat)
      requires Valid() && FreeRun(View().used, i, count)
      modifies this, bitmap, refcount
      ensures Valid() && bitmap == old(bitmap) && refcount == old(refcount)
      ensures View() == TakeRun(old(View()), i, count)
    {
      hide Bit, PmmOk, FreeRun;
      ghost var p := View();
      RunInside(p, i, count);
      for j := 0 to count
        invariant bitmap == old(bitmap) && refcount == old(refcount) && maxPageIndex == old(maxPageIndex) && Shape()
        invariant View() == TakeRun(p, i, j)
      {
        TakeFrame(i + j);
      }
      TakeRunOk(p, i, count);
    }

    /** pmm_free_pages. */
    method FreePages(addr: nat, count: nat)
      requires Valid()
      modifies this, bitmap, refcount
      ensures Valid() && bitmap == old(bitmap) && refcount == old(refcount)
      ensures Released(old(View()), View(), addr / PAGE, count)
    {
      hide Bit, PmmOk, Free, Released;
      ghost var p := View();
      for i := 0 to count
        invariant Valid() && bitmap == old(bitmap) && refcount == old(refcount)
        invariant View() == FreeMany(old(View()), addr, i)
      {
        FreePage(addr + i * PAGE);
      }
      FreeManyIs(p, addr, count);
    }

    /** pmm_page_ref; a reference on a free frame breaks the invariant. */
    method PageRef(addr: nat)
      requires Valid()
      modifies this, refcount
      ensures Shape() && bitmap == old(bitmap) && refcount == old(refcount)
      ensures View() == Ref(old(View()), addr / PAGE)
      ensures var f := addr / PAGE; Valid() <==> f == 0 || f >= |View().used| || f >= MAX_PAGES || View().used[f]
    {
      hide Bit;
      ghost var p := View();
      var page := addr / PAGE;
      RefOk(p, page);
      if page >= MAX_PAGES {
        return;
      }
      refcount[page] := (refcount[page] + 1) % REF_MODULUS;
      assert refcount[..] == p.rc[page := (p.rc[page] + 1) % REF_MODULUS];
    }

    /** pmm_page_unref.  The last reference looks the frame up in the bitmap. */
    method PageUnref(addr: nat)
      requires Valid()
      requires RefCount(View(), addr / PAGE) == 1 ==> addr / PAGE < maxPageIndex
      modifies this, bitmap, refcount
      ensures Valid() && bitmap == old(bitmap) && refcount == old(refcount)
      ensures View() == Unref(old(View()), addr / PAGE)
    {
      hide Bit;
      ghost var p := View();
      var page := addr / PAGE;
      UnrefOk(p, page);
      if page >= MAX_PAGES || page == 0 {
        return;
      }
      if refcount[page] > 0 {
        refcount[page] := refcount[page] - 1;
        assert refcount[..] == p.rc[page := p.rc[page] - 1];
        if refcount[page] == 0 {
          if Bit(bitmap[..], page) {
            BitmapClear(bitmap, page);
            used := used[page := false];
            usedPages := Dec64(usedPages);
          }
        }
      }
    }

    /** pmm_get_free_page_count reports the number of clear bits. */
    method FreeCount() returns (n: int)
      requires Valid()
      ensures n == CountFree(View().used)
    {
      n := if usedPages <= usablePages then usablePages - usedPages else usablePages - usedPages + U64;
    }
  }

  // ---- Facts about memory maps --------------------------------------------------------

  lemma HomeFits(e: MemEntry, size: nat)
    requires e.length % PAGE == 0 && e.length >= size
    ensures (size + PAGE - 1) / PAGE * PAGE <= e.length
  {
  }

  lemma Shifted(e: MemEntry, e': MemEntry, pages: nat)
    requires e.base % PAGE == 0 && e.length % PAGE == 0 && pages * PAGE <= e.length
    requires e' == MemEntry(e.base + pages * PAGE, e.length - pages * PAGE, true)
    ensures FirstPage(e') == FirstPage(e) + pages && EndPage(e') == EndPage(e)
    ensures e'.base % PAGE == 0 && e'.length % PAGE == 0 && FirstPage(e') <= EndPage(e')
  {
  }

  lemma HomeMapOk(es: seq<MemEntry>, es': seq<MemEntry>, i: nat, pages: nat)
    requires MapOk(es) && Rehomed(es, es', i, pages)
    ensures MapOk(es')
  {
    Shifted(es[i], es'[i], pages);
    hide FirstPage, EndPage;
    forall k, l | 0 <= k < l < |es'| && es'[k].usable && es'[l].usable ensures Apart(es'[k], es'[l]) {
      assert Apart(es[k], es[l]);
    }
  }

  /** The pages of the bitmap itself lie in no usable region any more. */
  lemma HomeKept(es: seq<MemEntry>, es': seq<MemEntry>, i: nat, pages: nat)
    requires MapOk(es) && Rehomed(es, es', i, pages)
    ensures forall f :: FirstPage(es[i]) <= f < FirstPage(es[i]) + pages ==> !InFirst(es', |es'|, f)
  {
    Shifted(es[i], es'[i], pages);
    forall f, k | FirstPage(es[i]) <= f < FirstPage(es[i]) + pages && 0 <= k < |es'| ensures !InEntry(es'[k], f) {
      if k < i && es[k].usable { assert Apart(es[k], es[i]); }
      if k > i && es[k].usable { assert Apart(es[i], es[k]); }
    }
  }

  lemma EntryBelow(e: MemEntry, highest: nat)
    requires e.base % PAGE == 0 && e.base + e.length <= highest
    ensures e.base / PAGE + e.length / PAGE <= highest / PAGE
  {
  }

  lemma OnlyHere(es: seq<MemEntry>, i: nat, f: nat)
    requires MapOk(es) && i < |es| && InEntry(es[i], f)
    ensures !InFirst(es, i, f)
  {
    forall k | 0 <= k < i ensures !InEntry(es[k], f) {
      if es[k].usable { assert Apart(es[k], es[i]); }
    }
  }

  lemma FirstStep(es: seq<MemEntry>, i: nat, f: nat)
    requires i < |es|
    ensures InFirst(es, i + 1, f) <==> InFirst(es, i, f) || InEntry(es[i], f)
  {
    if InFirst(es, i, f) {
      var k :| 0 <= k < i && InEntry(es[k], f);
    }
    if InFirst(es, i + 1, f) && !InEntry(es[i], f) {
      var k :| 0 <= k < i + 1 && InEntry(es[k], f);
      assert k < i;
    }
  }

  lemma OnesAreSet(bytes: seq<bv8>)
    requires forall j :: 0 <= j < |bytes| ==> bytes[j] == 0xFF
    ensures forall i :: 0 <= i < 8 * |bytes| ==> Bit(bytes, i)
  {
    forall i | 0 <= i < 8 * |bytes| ensures Bit(bytes, i) {
      Powers(i % 8);
    }
  }

  lemma {:induction false} NoneFree(used: seq<bool>)
    requires forall f :: 0 <= f < |used| ==> used[f]
    ensures CountFree(used) == 0
  {
    if used != [] { NoneFree(used[..|used| - 1]); }
  }

  function FreeMany(p: Pmm, addr: nat, count: nat): (q: Pmm)
    requires |p.rc| == MAX_PAGES
    ensures |q.rc| == MAX_PAGES
  {
    if count == 0 then p else Free(FreeMany(p, addr, count - 1), (addr + (count - 1) * PAGE) / PAGE)
  }

  /** The frames first .. first + count, except frame 0, are free without references in
      q, and the others are as in p. */
  ghost predicate Released(p: Pmm, q: Pmm, first: nat, count: nat)
  {
    && |q.used| == |p.used| && |q.rc| == |p.rc| == MAX_PAGES && q.usablePages == p.usablePages
    && (forall f :: 0 <= f < |p.used| ==> q.used[f] == (p.used[f] && (f == 0 || !(first <= f < first + count))))
    && (forall f :: 0 <= f < MAX_PAGES ==>
          q.rc[f] == if 0 < f < |p.used| && p.used[f] && first <= f < first + count then 0 else p.rc[f])
  }

  lemma {:induction false} FreeManyIs(p: Pmm, addr: nat, count: nat)
    requires |p.rc| == MAX_PAGES
    ensures Released(p, FreeMany(p, addr, count), addr / PAGE, count)
  {
    hide Free, Released;
    if count > 0 {
      FreeManyIs(p, addr, count - 1);
      NthFrame(addr, count - 1);
      ReleasedNext(p, FreeMany(p, addr, count - 1), addr / PAGE, count - 1);
    } else {
      ReleasedNone(p, addr / PAGE);
    }
  }

  lemma ReleasedNone(p: Pmm, first: nat)
    requires |p.rc| == MAX_PAGES
    ensures Released(p, p, first, 0)
  {
  }

  lemma ReleasedNext(p: Pmm, q: Pmm, first: nat, n: nat)
    requires Released(p, q, first, n)
    ensures Released(p, Free(q, first + n), first, n + 1)
  {
  }

  lemma NthFrame(addr: nat, i: nat)
    ensures (addr + i * PAGE) / PAGE == addr / PAGE + i
  {
  }

  lemma {:induction false} FirstFreeIs(used: seq<bool>, i: nat, f: nat)
    requires i <= f <= |used| && (forall j :: i <= j < f ==> used[j]) && (f < |used| ==> !used[f])
    ensures FirstFree(used, i) == f
    decreases f - i
  {
    if i < f { FirstFreeIs(used, i + 1, f); }
  }

  lemma RunInside(p: Pmm, i: nat, count: nat)
    requires FreeRun(p.used, i, count)
    ensures i + count <= |p.used|
  {
  }

  /** A run of one frame is what pmm_alloc_page looks for. */
  lemma OneIsRun(p: Pmm)
    requires PmmOk(p)
    ensures var (q, f) := Alloc(p);
            if f == 0 then q == p && forall i :: !FreeRun(p.used, i, 1)
            else FreeRun(p.used, f, 1) && q == TakeRun(p, f, 1) && forall i :: 0 <= i < f ==> !FreeRun(p.used, i, 1)
  {
    AllocOk(p);
    var f := FirstFree(p.used, 1);
    forall i: nat | FreeRun(p.used, i, 1) ensures f < |p.used| && f <= i {
      assert !p.used[i];
    }
    if f < |p.used| {
      assert TakeRun(p, f, 0) == p;
      assert TakeRun(p, f, 1) == TakeOne(p, f);
    }
  }
}
