/**
 Page faults, demand mapping and user stores as changes of the whole memory
 system, and what they mean for the bytes each address space sees.
 */
module CowSteps {
  import opened PmmSpec
  import opened PageTables
  import opened VmSteps
  import opened DestroySteps
  import opened SpaceOps
  import opened ForkCounts

  /** A page of an address space: the root and the virtual page. */
  datatype Addr = Addr(root: Frame, v: VPage)

  /** What the processes see: the contents of every present user page. */
  type View = imap<Addr, Page>

  function FrameAt(mem: Ram, f: Frame): Page { if f < |mem| then mem[f] else ZeroPage() }

  ghost predicate Has(s: VM, a: Addr) { InUserHalf(a.v) && UserPage(Pte(s, a.root, a.v)) }

  ghost function Content(s: VM, a: Addr): Page { FrameAt(s.mem, Pte(s, a.root, a.v).pfn) }

  ghost function Abs(s: VM): View
  {
    imap a: Addr | Has(s, a) :: Content(s, a)
  }

  // ---- A user store ---------------------------------------------------------------

  /** Word i of page v of root r is written through its writable entry. */
  ghost predicate Stored(s0: VM, s1: VM, r: Frame, v: VPage, i: nat, w: Word)
  {
    && InUserHalf(v) && Ix(i)
    && UserPage(Pte(s0, r, v)) && Pte(s0, r, v).writable
    && var f := Pte(s0, r, v).pfn;
       f < |s0.mem| && s1 == s0.(mem := s0.mem[f := s0.mem[f][i := w]])
  }

  /** A store through a writable entry hits no page table. */
  lemma StoredAt(s0: VM, s1: VM, r: Frame, v: VPage, i: nat, w: Word)
    requires Inv(s0) && Stored(s0, s1, r, v, i, w)
    ensures forall k, x {:trigger At(s1, k, x)} :: At(s1, k, x) == At(s0, k, x)
  {
    MappedHasRef(s0, r, v, Pte(s0, r, v).pfn);
  }

  lemma StoredInv(s0: VM, s1: VM, r: Frame, v: VPage, i: nat, w: Word)
    requires Inv(s0) && Stored(s0, s1, r, v, i, w)
    ensures Inv(s1)
  {
    StoredAt(s0, s1, r, v, i, w);
    SameEntriesOk(s0, s1);
    TreesKept(s0, s1);
    FramesKept(s0, s1);
  }

  /** Two entries on one frame, one of them writable, are the same entry. */
  lemma WritableIsSole(s: VM, r: Frame, v: VPage, r': Frame, v': VPage)
    requires Inv(s) && InUserHalf(v) && InUserHalf(v')
    requires UserPage(Pte(s, r, v)) && Pte(s, r, v).writable
    requires UserPage(Pte(s, r', v')) && Pte(s, r', v').pfn == Pte(s, r, v).pfn
    ensures r == r' && v == v'
  {
    var f := Pte(s, r, v).pfn;
    MappedHasRef(s, r, v, f);
    MappedHasRef(s, r', v', f);
    MappersIff(s, v, f, r);
    MappersIff(s, v, f, r');
    assert FrameOk(s, f);
  }

  /** A store changes one word of one page of one space. */
  lemma StoredAbs(s0: VM, s1: VM, r: Frame, v: VPage, i: nat, w: Word)
    requires Inv(s0) && Stored(s0, s1, r, v, i, w)
    ensures Addr(r, v) in Abs(s0)
    ensures Abs(s1) == Abs(s0)[Addr(r, v) := Abs(s0)[Addr(r, v)][i := w]]
  {
    hide Inv, At;
    StoredAt(s0, s1, r, v, i, w);
    assert Content(s1, Addr(r, v)) == Content(s0, Addr(r, v))[i := w];
    forall a: Addr | Has(s0, a) && a != Addr(r, v)
      ensures Content(s1, a) == Content(s0, a)
    {
      if Pte(s0, a.root, a.v).pfn == Pte(s0, r, v).pfn {
        WritableIsSole(s0, r, v, a.root, a.v);
      }
    }
    assert forall a :: Has(s1, a) <==> Has(s0, a);
    hide Has, Content, Stored;
  }

  // ---- A write fault on a page with one reference ---------------------------------

  ghost predicate Upgraded(s0: VM, s1: VM, r: Frame, v: VPage)
  {
    && InUserHalf(v) && UserPage(Pte(s0, r, v))
    && RefCount'(s0.pmm, Pte(s0, r, v).pfn) == 1
    && Good(s0) && s1 == WithEntry(s0, TableOf(r, v), v.d, Pte(s0, r, v).(writable := true))
  }

  ghost function RefCount'(p: Pmm, f: Frame): nat
  {
    if |p.rc| == MAX_PAGES then RefCount(p, f) else 0
  }

  lemma UpgradedInv(s0: VM, s1: VM, r: Frame, v: VPage)
    requires Inv(s0) && Upgraded(s0, s1, r, v)
    ensures Inv(s1)
  {
    var e := Pte(s0, r, v);
    var k := TableOf(r, v);
    MappedHasRef(s0, r, v, e.pfn);
    assert Leaf(k, v.d) == v;
    LeafWriteTrees(s0, k, v.d, e.(writable := true));
    AtWithEntry(s0, k, v.d, e.(writable := true));
    forall f | f in s1.own && s1.own[f].Pg? ensures FrameOk(s1, f) {
      UpgradedFrame(s0, s1, r, v, f);
    }
  }

  lemma UpgradedFrame(s0: VM, s1: VM, r: Frame, v: VPage, f: Frame)
    requires Inv(s0) && f in s0.own && s0.own[f].Pg?
    requires InUserHalf(v) && UserPage(Pte(s0, r, v)) && s0.pmm == s1.pmm && s1.own == s0.own
    requires RefCount'(s0.pmm, Pte(s0, r, v).pfn) == 1
    requires forall k, x {:trigger At(s1, k, x)} :: At(s1, k, x) ==
               if k == TableOf(r, v) && x == v.d then Pte(s0, r, v).(writable := true) else At(s0, k, x)
    ensures FrameOk(s1, f)
  {
    var u := s0.own[f].v;
    assert FrameOk(s0, f);
    forall q ensures q in Mappers(s1, u, f) <==> q in Mappers(s0, u, f) {
      MappersIff(s0, u, f, q);
      MappersIff(s1, u, f, q);
    }
    assert Mappers(s1, u, f) == Mappers(s0, u, f);
    MappedHasRef(s0, r, v, Pte(s0, r, v).pfn);
    MappersIff(s0, v, Pte(s0, r, v).pfn, r);
  }

  lemma UpgradedAbs(s0: VM, s1: VM, r: Frame, v: VPage)
    requires Inv(s0) && Upgraded(s0, s1, r, v)
    ensures Abs(s1) == Abs(s0)
  {
    var e := Pte(s0, r, v);
    AtWithEntry(s0, TableOf(r, v), v.d, e.(writable := true));
    assert s0.own[s0.tab[TableOf(r, v)]] == Tab(TableOf(r, v));
    SameView(s0, s1);
  }

  /** Spaces that map the same frames, with user memory untouched, look the same. */
  lemma SameView(s0: VM, s1: VM)
    requires Inv(s0)
    requires forall a: Addr {:trigger Pte(s1, a.root, a.v)} ::
               InUserHalf(a.v) ==>
                 && UserPage(Pte(s1, a.root, a.v)) == UserPage(Pte(s0, a.root, a.v))
                 && (UserPage(Pte(s0, a.root, a.v)) ==> Pte(s1, a.root, a.v).pfn == Pte(s0, a.root, a.v).pfn)
    requires forall f :: f in s0.own && s0.own[f].Pg? ==> FrameAt(s1.mem, f) == FrameAt(s0.mem, f)
    ensures Abs(s1) == Abs(s0)
  {
    forall a: Addr | Has(s0, a) ensures Content(s1, a) == Content(s0, a) {
      MappedHasRef(s0, a.root, a.v, Pte(s0, a.root, a.v).pfn);
    }
    assert forall a :: Has(s1, a) <==> Has(s0, a);
  }

  // ---- A write fault on a shared page -----------------------------------------------

  /** The entry cow_handle_fault and map_user_page install for a page. */
  function PageEntry(g: Frame, writable: bool): Word { Word(g, true, writable, true, 0) }

  /** Frame g gets the page of r at v with a copy of its contents, and the old
      frame loses one reference. */
  ghost predicate Split(s0: VM, s1: VM, r: Frame, v: VPage, g: Frame)
  {
    && InUserHalf(v) && UserPage(Pte(s0, r, v)) && Good(s0)
    && RefCount'(s0.pmm, Pte(s0, r, v).pfn) != 1
    && g == Alloc(s0.pmm).1 && 0 < g < |s0.mem| && Pte(s0, r, v).pfn < |s0.mem|
    && var f := Pte(s0, r, v).pfn;
       s1 == WithEntry(VM(s0.mem[g := s0.mem[f]], Unref(Alloc(s0.pmm).0, f), s0.tab, s0.own[g := Pg(v)]),
                       TableOf(r, v), v.d, PageEntry(g, true))
  }

  /** What is where after a split, in terms of entries, counts and frames. */
  ghost predicate SplitShape(s0: VM, s1: VM, r: Frame, v: VPage, f: Frame, g: Frame)
  {
    (
      && f in s0.own && s0.own[f] == Pg(v) && g !in s0.own && g != f && 0 < g < |s0.mem|
      && InUserHalf(v) && UserPage(Pte(s0, r, v)) && Pte(s0, r, v).pfn == f
      && |s1.mem| == |s0.mem| == |s0.pmm.used| && PmmOk(s1.pmm) && |s0.pmm.rc| == MAX_PAGES
      && s1.pmm.used == s0.pmm.used[g := true] && s1.pmm.usablePages == s0.pmm.usablePages
      && s1.tab == s0.tab && s1.own == s0.own[g := Pg(v)]
      && (forall k, x {:trigger At(s1, k, x)} :: At(s1, k, x) ==
            if k == TableOf(r, v) && x == v.d then PageEntry(g, true) else At(s0, k, x))
      && (forall h :: 0 <= h < MAX_PAGES ==>
            s1.pmm.rc[h] + (if h == f then 1 else 0) == if h == g then 1 else s0.pmm.rc[h])
      && (forall h :: h in s0.own && s0.own[h].Pg? ==> FrameAt(s1.mem, h) == FrameAt(s0.mem, h))
      && FrameAt(s1.mem, g) == FrameAt(s0.mem, f)
    ) == true
  }

  lemma SplitFacts(s0: VM, s1: VM, r: Frame, v: VPage, g: Frame)
    requires Inv(s0) && Split(s0, s1, r, v, g)
    ensures SplitShape(s0, s1, r, v, Pte(s0, r, v).pfn, g)
  {
    hide Inv, Good, PmmOk, Alloc, Unref, Trees, Translate;
    var f := Pte(s0, r, v).pfn;
    var k := TableOf(r, v);
    MappedHasRef(s0, r, v, f);
    CowFacts(s0, r, v);
    SizeOk(s0);
    SplitPmm(s0.pmm, f, g);
    FreeUnowned(s0, g);
    PlaceOf(s0, k, g);
    var m := s0.(mem := s0.mem[g := s0.mem[f]], own := s0.own[g := Pg(v)]);
    SplitMem(s0, m, s1, k, v, f, g);
  }

  lemma FreeUnowned(s: VM, g: Frame)
    requires Good(s) && g < |s.pmm.used| && !s.pmm.used[g]
    ensures g !in s.own
  {
  }

  /** The allocator after a split: one frame more in use, one reference moved. */
  lemma SplitPmm(p: Pmm, f: Frame, g: Frame)
    requires PmmOk(p) && |p.rc| == MAX_PAGES && 0 < f < |p.used| && p.used[f] && g == Alloc(p).1 && g != 0
    requires f < MAX_PAGES ==> p.rc[f] > 1
    ensures var q := Unref(Alloc(p).0, f);
            && PmmOk(q) && f != g && g < |p.used| && !p.used[g]
            && q.used == p.used[g := true] && q.usablePages == p.usablePages
            && forall h :: 0 <= h < MAX_PAGES ==> q.rc[h] + (if h == f then 1 else 0) == if h == g then 1 else p.rc[h]
  {
    AllocOk(p);
    UnrefOk(Alloc(p).0, f);
  }

  /** The memory after a split: only the leaf entry and the new frame differ. */
  lemma SplitMem(s0: VM, m: VM, s1: VM, k: Key, v: VPage, f: Frame, g: Frame)
    requires Trees(s0) && k in s0.tab && s0.tab[k] < |s0.mem| && g !in s0.own && 0 < g < |s0.mem| && f < |s0.mem| && Ix(v.d)
    requires f in s0.own && s0.own[f].Pg?
    requires m == s0.(mem := s0.mem[g := s0.mem[f]], own := s0.own[g := Pg(v)])
    requires s1.tab == s0.tab && s1.mem == WithEntry(m, k, v.d, PageEntry(g, true)).mem
    ensures forall j, x {:trigger At(s1, j, x)} :: At(s1, j, x) == if j == k && x == v.d then PageEntry(g, true) else At(s0, j, x)
    ensures forall h :: h in s0.own && s0.own[h].Pg? ==> FrameAt(s1.mem, h) == FrameAt(s0.mem, h)
    ensures FrameAt(s1.mem, g) == FrameAt(s0.mem, f)
  {
    assert s0.own[s0.tab[k]] == Tab(k);
  }

  lemma SplitTrees(s0: VM, s1: VM, r: Frame, v: VPage, f: Frame, g: Frame)
    requires Trees(s0) && SplitShape(s0, s1, r, v, f, g)
    ensures Trees(s1)
  {
    TreesGood(s0);
    SplitEntries(s0, s1, r, v, f, g);
    SplitGood(s0, s1, r, v, f, g);
    hide Good;
    TreesKept(s0, s1);
  }

  lemma SplitEntries(s0: VM, s1: VM, r: Frame, v: VPage, f: Frame, g: Frame)
    requires Good(s0) && SplitShape(s0, s1, r, v, f, g)
    ensures EntriesOk(s1)
  {
    forall k: Key, x | !k.L1? && 0 <= x < Span(k) ensures InnerOk(s1, k, x) {
      assert InnerOk(s0, k, x);
    }
    forall k: Key, x | k.L1? && Ix(x) ensures LeafOk(s1, k, x) {
      assert LeafOk(s0, k, x);
    }
  }

  lemma SplitGood(s0: VM, s1: VM, r: Frame, v: VPage, f: Frame, g: Frame)
    requires Good(s0) && SplitShape(s0, s1, r, v, f, g) && EntriesOk(s1)
    ensures Good(s1)
  {
    hide EntriesOk, PmmOk, PlacesOk, OwnersOk, Pte;
    OwnOne(s0.tab, s0.own, s0.pmm.used, |s0.mem|, v, g);
  }

  /** The mappers after a split: r moved from the old frame to the new one. */
  lemma SplitMappers(s0: VM, s1: VM, r: Frame, v: VPage, f: Frame, g: Frame, h: Frame, u: VPage)
    requires EntriesOk(s0) && SplitShape(s0, s1, r, v, f, g) && InUserHalf(u)
    ensures Mappers(s1, u, h) == if h == g then (if u == v then {r} else {}) else
                                 if h == f && u == v then Mappers(s0, u, h) - {r} else Mappers(s0, u, h)
    ensures forall q :: q in Mappers(s1, u, h) && h != g ==> Pte(s1, q, u) == Pte(s0, q, u)
  {
    forall q ensures q in Mappers(s1, u, h) <==>
                     if h == g then u == v && q == r else q in Mappers(s0, u, h) && (h == f && u == v ==> q != r)
    {
      MappersIff(s0, u, h, q);
      MappersIff(s1, u, h, q);
      assert LeafOk(s0, TableOf(q, u), u.d);
      SamePlace(q, u, r, v);
    }
    forall q | q in Mappers(s1, u, h) && h != g ensures Pte(s1, q, u) == Pte(s0, q, u) {
      MappersIff(s1, u, h, q);
    }
  }

  lemma SamePlace(q: Frame, u: VPage, r: Frame, v: VPage)
    ensures TableOf(q, u) == TableOf(r, v) && u.d == v.d <==> q == r && u == v
  {
  }

  lemma SplitFrame(s0: VM, s1: VM, r: Frame, v: VPage, f: Frame, g: Frame, h: Frame)
    requires Inv(s0) && SplitShape(s0, s1, r, v, f, g) && h in s1.own && s1.own[h].Pg?
    ensures FrameOk(s1, h)
  {
    var u := s1.own[h].v;
    SplitMappers(s0, s1, r, v, f, g, h, u);
    MappersIff(s0, v, f, r);
    if h != g { assert FrameOk(s0, h); }
  }

  lemma SplitInv(s0: VM, s1: VM, r: Frame, v: VPage, g: Frame)
    requires Inv(s0) && Split(s0, s1, r, v, g)
    ensures Inv(s1)
  {
    SplitFacts(s0, s1, r, v, g);
    SplitTrees(s0, s1, r, v, Pte(s0, r, v).pfn, g);
    forall h | h in s1.own && s1.own[h].Pg? ensures FrameOk(s1, h) {
      SplitFrame(s0, s1, r, v, Pte(s0, r, v).pfn, g, h);
    }
  }

  lemma SplitAbs(s0: VM, s1: VM, r: Frame, v: VPage, f: Frame, g: Frame)
    requires Inv(s0) && SplitShape(s0, s1, r, v, f, g)
    ensures Abs(s1) == Abs(s0)
  {
    forall a: Addr ensures Has(s1, a) <==> Has(s0, a) {
      SamePlace(a.root, a.v, r, v);
    }
    forall a: Addr | Has(s0, a) ensures Content(s1, a) == Content(s0, a) {
      SamePlace(a.root, a.v, r, v);
      MappedHasRef(s0, a.root, a.v, Pte(s0, a.root, a.v).pfn);
    }
  }

  // ---- A page mapped on demand --------------------------------------------------------

  /** A cleared frame g of nobody becomes the page v of r; mid is the state in
      which the tables on the way exist. */
  ghost predicate Placed(mid: VM, s1: VM, r: Frame, v: VPage, g: Frame, writable: bool)
  {
    && Inv(mid) && InUserHalf(v) && TableOf(r, v) in mid.tab && !UserPage(Pte(mid, r, v))
    && 0 < g < |mid.mem| && g !in mid.own && mid.pmm.used[g] && mid.mem[g] == ZeroPage()
    && RefCount'(mid.pmm, g) == (if g < MAX_PAGES then 1 else 0)
    && s1 == WithEntry(mid.(own := mid.own[g := Pg(v)]), TableOf(r, v), v.d, PageEntry(g, writable))
  }

  ghost predicate PlacedShape(mid: VM, s1: VM, r: Frame, v: VPage, g: Frame, w: bool)
  {
    (
      && InUserHalf(v) && !UserPage(Pte(mid, r, v)) && g !in mid.own
      && s1.own == mid.own[g := Pg(v)] && s1.pmm == mid.pmm && |s1.pmm.rc| == MAX_PAGES
      && RefCount'(mid.pmm, g) == (if g < MAX_PAGES then 1 else 0)
      && (forall k, x {:trigger At(s1, k, x)} :: At(s1, k, x) ==
            if k == TableOf(r, v) && x == v.d then PageEntry(g, w) else At(mid, k, x))
      && (forall h :: h in mid.own && mid.own[h].Pg? ==> FrameAt(s1.mem, h) == FrameAt(mid.mem, h))
      && FrameAt(s1.mem, g) == ZeroPage()
    ) == true
  }

  lemma PlacedFacts(mid: VM, s1: VM, r: Frame, v: VPage, g: Frame, w: bool)
    requires Placed(mid, s1, r, v, g, w)
    ensures Trees(s1) && PlacedShape(mid, s1, r, v, g, w)
  {
    hide Inv, Trees;
    var k := TableOf(r, v);
    var m := mid.(own := mid.own[g := Pg(v)]);
    InvTrees(mid);
    PlaceOf(mid, k, g);
    OwnPage(mid, v, g);
    LeafWriteFacts(m, k, v.d, PageEntry(g, w));
  }

  lemma PlaceOf(s: VM, k: Key, g: Frame)
    requires Trees(s) && k in s.tab && g !in s.own
    ensures s.tab[k] in s.own && s.own[s.tab[k]] == Tab(k) && s.tab[k] != g && s.tab[k] < |s.mem| && |s.pmm.rc| == MAX_PAGES
  {
  }

  lemma PlacedFrame(mid: VM, s1: VM, r: Frame, v: VPage, g: Frame, w: bool, h: Frame)
    requires Inv(mid) && PlacedShape(mid, s1, r, v, g, w) && h in s1.own && s1.own[h].Pg?
    ensures FrameOk(s1, h)
  {
    var u := s1.own[h].v;
    forall q ensures q in Mappers(s1, u, h) <==> if h == g then q == r else q in Mappers(mid, u, h) {
      MappersIff(mid, u, h, q);
      MappersIff(s1, u, h, q);
      assert LeafOk(mid, TableOf(q, u), u.d);
      SamePlace(q, u, r, v);
    }
    assert Mappers(s1, u, h) == if h == g then {r} else Mappers(mid, u, h);
    if h != g {
      assert FrameOk(mid, h);
      forall q | q in Mappers(s1, u, h) ensures Pte(s1, q, u) == Pte(mid, q, u) {
        MappersIff(s1, u, h, q);
      }
    }
  }

  lemma PlacedInv(mid: VM, s1: VM, r: Frame, v: VPage, g: Frame, w: bool)
    requires Placed(mid, s1, r, v, g, w)
    ensures Inv(s1)
  {
    PlacedFacts(mid, s1, r, v, g, w);
    forall h | h in s1.own && s1.own[h].Pg? ensures FrameOk(s1, h) {
      PlacedFrame(mid, s1, r, v, g, w, h);
    }
  }

  lemma PlacedAbs(mid: VM, s1: VM, r: Frame, v: VPage, g: Frame, w: bool)
    requires Inv(mid) && PlacedShape(mid, s1, r, v, g, w)
    ensures Addr(r, v) !in Abs(mid)
    ensures Abs(s1) == Abs(mid)[Addr(r, v) := ZeroPage()]
  {
    hide Inv, PlacedShape, Has, Content;
    forall a: Addr
      ensures Has(s1, a) <==> Has(mid, a) || a == Addr(r, v)
      ensures Has(mid, a) ==> a != Addr(r, v) && Content(s1, a) == Content(mid, a)
    {
      PlacedAt(mid, s1, r, v, g, w, a);
    }
    PlacedAt(mid, s1, r, v, g, w, Addr(r, v));
  }

  lemma PlacedAt(mid: VM, s1: VM, r: Frame, v: VPage, g: Frame, w: bool, a: Addr)
    requires Inv(mid) && PlacedShape(mid, s1, r, v, g, w)
    ensures Has(s1, a) <==> Has(mid, a) || a == Addr(r, v)
    ensures if a == Addr(r, v) then !Has(mid, a) && Content(s1, a) == ZeroPage() else Has(mid, a) ==> Content(s1, a) == Content(mid, a)
  {
    hide Inv;
    SamePlace(a.root, a.v, r, v);
    if Has(mid, a) { MappedHasRef(mid, a.root, a.v, Pte(mid, a.root, a.v).pfn); }
  }

  /** Allocating tables on the way changes nothing the processes see. */
  lemma ExtendsAbs(s0: VM, mid: VM)
    requires Inv(s0) && Extends(s0, mid)
    ensures Abs(mid) == Abs(s0)
  {
    forall f | f in s0.own && s0.own[f].Pg? ensures FrameAt(mid.mem, f) == FrameAt(s0.mem, f) {
    }
    SameView(s0, mid);
  }

  // ---- Clone and teardown --------------------------------------------------------------

  /** After a clone the child sees the parent's bytes on every page it got, which is
      every page exactly if there were frames for the tables up to the last page;
      nobody else's view changed. */
  lemma ForkedAbs(s0: VM, s1: VM, r: Frame, c: Frame)
    requires Inv(s0) && Forked(s0, s1, r, c)
    ensures forall a: Addr :: a.root != c ==> (a in Abs(s1) <==> a in Abs(s0)) && (a in Abs(s0) ==> Abs(s1)[a] == Abs(s0)[a])
    ensures forall v :: Addr(c, v) !in Abs(s0)
    ensures forall v :: Addr(c, v) in Abs(s1) ==>
              Addr(r, v) in Abs(s0) && Abs(s1)[Addr(c, v)] == Abs(s0)[Addr(r, v)]
    ensures FreePageCount(s0.pmm) >= Needed(s0, r) <==> forall v :: Addr(r, v) in Abs(s0) ==> Addr(c, v) in Abs(s1)
  {
    forall a: Addr | a.root != c && InUserHalf(a.v)
      ensures Has(s1, a) <==> Has(s0, a)
      ensures Has(s0, a) ==> Content(s1, a) == Content(s0, a)
    {
      ForkedPte(s0, s1, r, c, a.root, a.v);
      if Has(s0, a) { ForkedContent(s0, s1, r, c, a); }
    }
    forall v | InUserHalf(v)
      ensures !Has(s0, Addr(c, v))
      ensures Has(s1, Addr(c, v)) ==> Has(s0, Addr(r, v)) && Content(s1, Addr(c, v)) == Content(s0, Addr(r, v))
    {
      ForkedPte(s0, s1, r, c, c, v);
      if Has(s0, Addr(r, v)) { ForkedContent(s0, s1, r, c, Addr(r, v)); }
    }
    PagesExactly(s0, s1, r, c);
    HasAll(s0, s1, r, c);
  }

  lemma HasAll(s0: VM, s1: VM, r: Frame, c: Frame)
    ensures AllPages(s0, s1, r, c) <==> forall v :: Addr(r, v) in Abs(s0) ==> Addr(c, v) in Abs(s1)
  {
    hide Pte;
    if AllPages(s0, s1, r, c) {
      forall v | Addr(r, v) in Abs(s0) ensures Addr(c, v) in Abs(s1) {
        assert Has(s0, Addr(r, v));
      }
    }
    if forall v :: Addr(r, v) in Abs(s0) ==> Addr(c, v) in Abs(s1) {
      forall v | InUserHalf(v) && UserPage(Pte(s0, r, v)) ensures UserPage(Pte(s1, c, v)) {
        assert Addr(r, v) in Abs(s0);
        assert Has(s1, Addr(c, v));
      }
    }
  }

  lemma ForkedContent(s0: VM, s1: VM, r: Frame, c: Frame, a: Addr)
    requires Inv(s0) && Forked(s0, s1, r, c) && Has(s0, a)
    ensures FrameAt(s1.mem, Pte(s0, a.root, a.v).pfn) == FrameAt(s0.mem, Pte(s0, a.root, a.v).pfn)
  {
    MappedHasRef(s0, a.root, a.v, Pte(s0, a.root, a.v).pfn);
  }

  lemma TornAbs(s0: VM, s1: VM, r: Frame)
    requires Torn(s0, s1, r)
    ensures Abs(s1) == imap a | a in Abs(s0) && a.root != r :: Abs(s0)[a]
  {
    forall a: Addr
      ensures Has(s1, a) <==> Has(s0, a) && a.root != r
      ensures Has(s1, a) ==> Content(s1, a) == Content(s0, a)
    {
      TornAt(s0, s1, r, TableOf(a.root, a.v), a.v.d);
    }
  }

  // ---- What the fault handler needs to know --------------------------------------------

  lemma CowFacts(s: VM, r: Frame, v: VPage)
    requires Inv(s) && InUserHalf(v) && UserPage(Pte(s, r, v))
    ensures Good(s) && Trees(s) && |s.pmm.rc| == MAX_PAGES && TableOf(r, v) in s.tab && L4(r) in s.tab
    ensures s.tab[TableOf(r, v)] < |s.mem| && Pte(s, r, v) == s.mem[s.tab[TableOf(r, v)]][v.d]
    ensures 0 < Pte(s, r, v).pfn < |s.mem|
    ensures Translate(s.mem, r, v) == Pte(s, r, v)
  {
    assert Linked(s, TableOf(r, v));
    TranslateIsPte(s, r, v);
    MappedHasRef(s, r, v, Pte(s, r, v).pfn);
  }

  lemma SizeOk(s: VM)
    requires Good(s)
    ensures |s.mem| == |s.pmm.used| && PmmOk(s.pmm)
  {
  }

  /** Writing a frame nobody uses keeps the trees. */
  lemma FillFree(t: VM, s1: VM, g: Frame, p: Page)
    requires Trees(t) && g < |t.mem| && g !in t.own && s1 == t.(mem := s1.mem) && s1.mem == t.mem[g := p]
    ensures Trees(s1)
  {
    assert forall k, x {:trigger At(s1, k, x)} :: At(s1, k, x) == At(t, k, x);
    SameEntriesOk(t, s1);
    TreesKept(t, s1);
  }

  /** A frame just allocated can hold the copy and be mapped. */
  lemma CopyReady(s: VM, s1: VM, r: Frame, v: VPage, g: Frame)
    requires Inv(s) && InUserHalf(v) && UserPage(Pte(s, r, v))
    requires g == Alloc(s.pmm).1 && g != 0 && g < |s.mem| && Pte(s, r, v).pfn < |s.mem|
    requires s1 == Taken(s, g).(mem := s.mem[g := s.mem[Pte(s, r, v).pfn]])
    ensures Trees(s1) && Mappable(s1, v, PageEntry(g, true))
    ensures TableOf(r, v) in s1.tab && L4(r) in s1.tab && g != Pte(s, r, v).pfn && |s1.pmm.rc| == MAX_PAGES
  {
    hide Inv, Trees, Good, Extends, Translate, Pte;
    CowFacts(s, r, v);
    TakenExtends(s, g);
    TakenOk(s, g);
    SizeOk(s);
    hide PmmOk;
    AllocOk(s.pmm);
    MappedHasRef(s, r, v, Pte(s, r, v).pfn);
    var t := Taken(s, g);
    FillFree(t, s1, g, s.mem[Pte(s, r, v).pfn]);
  }

  /** A frame just allocated can become a page. */
  lemma DemandReady(s: VM, s1: VM, v: VPage, g: Frame, w: bool)
    requires Inv(s) && g == Alloc(s.pmm).1 && g != 0 && g < |s.mem| && s1 == Taken(s, g)
    ensures Trees(s1) && Extends(s, s1) && Inv(s1) && Mappable(s1, v, PageEntry(g, w))
    ensures g !in s1.own && s1.pmm.used[g] && s1.mem[g] == ZeroPage()
    ensures RefCount'(s1.pmm, g) == (if g < MAX_PAGES then 1 else 0)
  {
    TakenExtends(s, g);
    ExtendsFrames(s, s1);
    AllocOk(s.pmm);
  }

  lemma DemandDone(s1: VM, mid: VM, s2: VM, r: Frame, v: VPage, g: Frame, w: bool)
    requires Inv(s1) && Trees(mid) && Extends(s1, mid) && InUserHalf(v) && !UserPage(Pte(s1, r, v))
    requires 0 < g < |s1.mem| && g !in s1.own && s1.pmm.used[g] && s1.mem[g] == ZeroPage()
    requires RefCount'(s1.pmm, g) == (if g < MAX_PAGES then 1 else 0)
    requires TableOf(r, v) in mid.tab && mid.tab[TableOf(r, v)] < |mid.mem|
    requires s2 == WithEntry(WithPage(mid, v, PageEntry(g, w)), TableOf(r, v), v.d, PageEntry(g, w))
    ensures Placed(mid, s2, r, v, g, w)
  {
    ExtendsFrames(s1, mid);
    LeavesKept(s1, mid);
  }

  lemma PlacedEntry(mid: VM, s1: VM, r: Frame, v: VPage, g: Frame, w: bool)
    requires Placed(mid, s1, r, v, g, w)
    ensures Pte(s1, r, v) == PageEntry(g, w)
  {
    PlacedFacts(mid, s1, r, v, g, w);
  }

  lemma PteOf(s: VM, r: Frame, v: VPage)
    requires Inv(s) && InUserHalf(v)
    ensures Trees(s)
    ensures L4(r) in s.tab ==> Translate(s.mem, r, v) == Pte(s, r, v)
    ensures TableOf(r, v) in s.tab ==> s.tab[TableOf(r, v)] < |s.mem| && Pte(s, r, v) == s.mem[s.tab[TableOf(r, v)]][v.d]
  {
    if L4(r) in s.tab { TranslateIsPte(s, r, v); }
  }

  /** The processor lets a store through exactly on a writable user entry. */
  lemma StoreAccess(s: VM, r: Frame, v: VPage)
    requires Inv(s) && InUserHalf(v) && L4(r) in s.tab
    ensures Access(s.mem, r, v, true) <==> UserPage(Pte(s, r, v)) && Pte(s, r, v).writable
  {
    hide Trees, Access, Translate;
    PteOf(s, r, v);
    AccessIsLeaf(s, r, v, true);
  }

  lemma UpgradedEntry(s0: VM, s1: VM, r: Frame, v: VPage)
    requires Upgraded(s0, s1, r, v)
    ensures UserPage(Pte(s1, r, v)) && Pte(s1, r, v).writable
  {
    AtWithEntry(s0, TableOf(r, v), v.d, Pte(s0, r, v).(writable := true));
  }

  lemma SplitEntry(s0: VM, s1: VM, r: Frame, v: VPage, g: Frame)
    requires Inv(s0) && Split(s0, s1, r, v, g)
    ensures Pte(s1, r, v) == PageEntry(g, true)
  {
    SplitFacts(s0, s1, r, v, g);
  }

  lemma FreshIsOther(s: VM, r: Frame, v: VPage, g: Frame)
    requires Inv(s) && InUserHalf(v) && UserPage(Pte(s, r, v)) && g == Alloc(s.pmm).1 && g != 0
    ensures g != Pte(s, r, v).pfn
  {
    AllocOk(s.pmm);
    MappedHasRef(s, r, v, Pte(s, r, v).pfn);
  }
}
