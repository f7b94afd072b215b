/**
 What vmm_cow_clone and vmm_destroy_address_space do as wholes, that both keep
 the invariant, and that one undoes the other.
 */
module SpaceOps {
  import opened PmmSpec
  import opened PageTables
  import opened VmSteps
  import opened CloneSteps
  import opened DestroySteps

  // ---- A new address space ---------------------------------------------------------

  /** A PML4 with an empty user half and the kernel half of page p. */
  function RootPage(p: Page): (q: Page)
    ensures forall x :: 0 <= x < 256 ==> q[x] == ZERO
    ensures forall x :: 256 <= x < 512 ==> q[x] == p[x]
  {
    seq(512, x requires 0 <= x < 512 => if x < 256 then ZERO else p[x])
  }

  /** s1 is s0 with an empty address space at root c, sharing the kernel half of cur. */
  ghost predicate Created(s0: VM, s1: VM, c: Frame, cur: Frame)
  {
    && Trees(s0) && c == Alloc(s0.pmm).1 && 0 < c < |s0.mem| && cur < |s0.mem|
    && s1 == VM(s0.mem[c := RootPage(s0.mem[cur])], Alloc(s0.pmm).0, s0.tab[L4(c) := c], s0.own[c := Tab(L4(c))])
  }

  ghost predicate CreatedShape(s0: VM, s1: VM, c: Frame)
  {
    (
      && Trees(s0) && 0 < c < |s0.mem| && c !in s0.own && !s0.pmm.used[c] && L4(c) !in s0.tab
      && |s1.mem| == |s0.mem| && s1.tab == s0.tab[L4(c) := c] && s1.own == s0.own[c := Tab(L4(c))]
      && PmmOk(s1.pmm) && s1.pmm.used == s0.pmm.used[c := true] && s1.pmm.usablePages == s0.pmm.usablePages
      && s1.pmm.rc == (if c < MAX_PAGES then s0.pmm.rc[c := 1] else s0.pmm.rc)
      && (forall f :: 0 <= f < |s0.mem| && f != c ==> s1.mem[f] == s0.mem[f])
      && (forall k: Key, x {:trigger At(s1, k, x)} :: k != L4(c) ==> At(s1, k, x) == At(s0, k, x))
      && (forall x :: 0 <= x < 256 ==> At(s1, L4(c), x) == ZERO)
    ) == true
  }

  lemma CreatedFacts(s0: VM, s1: VM, c: Frame, cur: Frame)
    requires Created(s0, s1, c, cur)
    ensures CreatedShape(s0, s1, c)
  {
    CreatedPmm(s0, c);
    hide Trees, PmmOk, Alloc;
    assert c !in s0.own;
  }

  lemma CreatedPmm(s: VM, c: Frame)
    requires Trees(s) && c == Alloc(s.pmm).1 && 0 < c
    ensures |s.mem| == |s.pmm.used| && c < |s.mem| && !s.pmm.used[c] && c !in s.own && L4(c) !in s.tab
    ensures var p := Alloc(s.pmm).0;
            && PmmOk(p) && p.used == s.pmm.used[c := true] && p.usablePages == s.pmm.usablePages
            && p.rc == if c < MAX_PAGES then s.pmm.rc[c := 1] else s.pmm.rc
    ensures forall k :: k in s.tab ==> s.tab[k] != c
  {
    AllocOk(s.pmm);
  }

  lemma CreatedTrees(s0: VM, s1: VM, c: Frame)
    requires CreatedShape(s0, s1, c)
    ensures Trees(s1)
  {
    CreatedEntries(s0, s1, c);
    CreatedGood(s0, s1, c);
    hide Good;
    TreesKept(s0, s1);
  }

  lemma CreatedGood(s0: VM, s1: VM, c: Frame)
    requires CreatedShape(s0, s1, c) && EntriesOk(s1)
    ensures Good(s1)
  {
    TreesParts(s0);
    hide Trees, EntriesOk, PmmOk, PlacesOk, OwnersOk;
    OwnTable(s0.tab, s0.own, s0.pmm.used, |s0.mem|, L4(c), c);
  }

  lemma TreesParts(s: VM)
    requires Trees(s)
    ensures |s.mem| == |s.pmm.used| && PlacesOk(s.tab, s.own, |s.mem|) && OwnersOk(s.tab, s.own, s.pmm.used)
  {
  }

  lemma CreatedEntries(s0: VM, s1: VM, c: Frame)
    requires CreatedShape(s0, s1, c)
    ensures EntriesOk(s1)
  {
    forall k: Key, x | !k.L1? && 0 <= x < Span(k) ensures InnerOk(s1, k, x) {
      assert InnerOk(s0, k, x);
    }
    forall k: Key, x | k.L1? && Ix(x) ensures LeafOk(s1, k, x) {
      assert LeafOk(s0, k, x);
    }
  }

  lemma CreatedInv(s0: VM, s1: VM, c: Frame)
    requires Inv(s0) && CreatedShape(s0, s1, c)
    ensures Inv(s1)
  {
    CreatedTrees(s0, s1, c);
    hide Trees, PmmOk;
    CreatedPages(s0, s1, c);
    FramesKept(s0, s1);
  }

  lemma CreatedPages(s0: VM, s1: VM, c: Frame)
    requires CreatedShape(s0, s1, c)
    ensures |s0.pmm.rc| == |s1.pmm.rc| && forall r, v {:trigger Pte(s1, r, v)} :: Pte(s1, r, v) == Pte(s0, r, v)
    ensures forall f :: f in s1.own && s1.own[f].Pg? ==>
              f in s0.own && s0.own[f] == s1.own[f] && (f < |s0.pmm.rc| ==> s1.pmm.rc[f] == s0.pmm.rc[f])
  {
  }

  /** A fresh root is where the clone of any space starts. */
  lemma CloneStart(s0: VM, s1: VM, r: Frame, c: Frame)
    requires CreatedShape(s0, s1, c) && L4(r) in s0.tab
    ensures CloneInv(s0, s1, r, c) && Blank(s1, L4(c))
  {
    CreatedTrees(s0, s1, c);
    CloneStartTabs(s0, s1, r, c);
    CloneStartCells(s0, s1, r, c);
    CloneStartRefs(s0, s1, c);
    hide CloneTabs, CloneCells, CloneRefs;
  }

  lemma CloneStartCells(s0: VM, s1: VM, r: Frame, c: Frame)
    requires CreatedShape(s0, s1, c) && forall k :: k in s0.tab ==> k.root != c
    ensures CloneCells(s0, s1, r, c)
  {
    forall k: Key, x | k.L1? && k.root == r && Ix(x) ensures CellOk(s0, s1, k, x, c) {
      assert In(k, c) !in s0.tab;
    }
  }

  lemma CloneStartRefs(s0: VM, s1: VM, c: Frame)
    requires CreatedShape(s0, s1, c) && forall k :: k in s0.tab ==> k.root != c
    ensures CloneRefs(s0, s1, c)
  {
    forall f | 0 <= f < MAX_PAGES ensures CloneRef(s0, s1, c, f) {
      if f in s0.own && s0.own[f].Pg? { assert TableOf(c, s0.own[f].v) !in s0.tab; }
    }
  }

  lemma CreatedKernel(s0: VM, s1: VM, c: Frame, cur: Frame)
    requires Created(s0, s1, c, cur)
    ensures cur < |s0.mem| && forall x :: 256 <= x < 512 ==> At(s1, L4(c), x) == s0.mem[cur][x]
  {
  }

  lemma InvTrees(s: VM)
    requires Inv(s)
    ensures Trees(s)
  {
  }

  lemma RootPlace(s0: VM, s1: VM, r: Frame, c: Frame)
    requires CreatedShape(s0, s1, c) && L4(r) in s0.tab
    ensures s0.tab[L4(r)] == r && L4(c) in s1.tab && s1.tab[L4(c)] == c
  {
  }

  lemma CloneStartTabs(s0: VM, s1: VM, r: Frame, c: Frame)
    requires CreatedShape(s0, s1, c) && L4(r) in s0.tab
    ensures CloneTabs(s0, s1.tab, s1.own, s1.pmm.used, r, c)
    ensures forall k :: k in s0.tab ==> k.root != c
  {
    forall k | k in s0.tab ensures k.root != c {
      assert Linked(s0, k);
    }
  }

  /** s1 is s0 with root r cloned to root c. */
  ghost predicate Forked(s0: VM, s1: VM, r: Frame, c: Frame)
  {
    (
      && CloneInv(s0, s1, r, c)
      && HangsBelow(s1, L4(c), 512)
      && CopiedBelow(s0, s1, L4(c), r)
      && CompleteBelow(s0, s1, L4(r), c, 512)
      && PrefixBelow(s0, s1, L4(r), c, 512)
    ) == true
  }

  lemma CloneEnd(s0: VM, s1: VM, s2: VM, r: Frame, c: Frame)
    requires TableLoop(s0, s1, s2, L4(r), c, 512)
    ensures Forked(s0, s2, r, c)
    ensures forall x :: 256 <= x < 512 ==> At(s2, L4(c), x) == At(s1, L4(c), x)
  {
    hide CloneInv, HangsBelow, CopiedBelow, CompleteBelow, PrefixBelow, OnlyBelow;
    KernelKept(s1, s2, L4(c));
  }

  lemma KernelKept(s: VM, s': VM, n: Key)
    requires OnlyBelow(s, s', n) && n.L4?
    ensures forall x :: 256 <= x < 512 ==> At(s', n, x) == At(s, n, x)
  {
  }

  lemma ForkedClone(s0: VM, s1: VM, r: Frame, c: Frame)
    requires Forked(s0, s1, r, c)
    ensures CloneInv(s0, s1, r, c)
  {
  }

  lemma CellAt(s0: VM, s1: VM, r: Frame, c: Frame, k: Key, x: nat)
    requires CloneInv(s0, s1, r, c) && k.L1? && k.root == r && Ix(x)
    ensures CellRel(At(s0, k, x), At(s1, k, x), At(s1, In(k, c), x))
  {
    assert CellOk(s0, s1, k, x, c);
  }

  /** The root of the clone is new. */
  lemma NoChildTables(s0: VM, s1: VM, r: Frame, c: Frame)
    requires CloneInv(s0, s1, r, c)
    ensures forall k :: k in s0.tab ==> k.root != c
  {
  }

  /** The child's entries are the parent's without write permission, or absent;
      parent and child agree wherever the child has the page; all other spaces
      keep their entries. */
  lemma ForkedPte(s0: VM, s1: VM, r: Frame, c: Frame, q: Frame, v: VPage)
    requires Forked(s0, s1, r, c) && InUserHalf(v)
    ensures !Pte(s0, c, v).present
    ensures CellRel(Pte(s0, r, v), Pte(s1, r, v), Pte(s1, c, v))
    ensures q != r && q != c ==> Pte(s1, q, v) == Pte(s0, q, v)
  {
    hide Forked, CloneInv;
    ForkedClone(s0, s1, r, c);
    CellAt(s0, s1, r, c, TableOf(r, v), v.d);
    NoChildTables(s0, s1, r, c);
    if q != r && q != c {
      OtherTable(s0, s1, r, c, TableOf(q, v), v.d);
    }
  }

  lemma OtherTable(s0: VM, s1: VM, r: Frame, c: Frame, k: Key, x: nat)
    requires CloneInv(s0, s1, r, c) && k.root != c && (k.root != r || !k.L1?)
    ensures At(s1, k, x) == At(s0, k, x)
  {
    hide CloneInv;
    CloneParts(s0, s1, r, c);
    TreesParts(s0);
    hide CloneCells, CloneRefs, Good, PmmOk, Trees;
    if k in s0.tab {
      assert s0.own[s0.tab[k]] == Tab(k);
    }
  }

  lemma ForkedTrees(s0: VM, s1: VM, r: Frame, c: Frame)
    requires Forked(s0, s1, r, c)
    ensures Trees(s1)
  {
    hide Forked, CloneInv, Trees, Good;
    ForkedClone(s0, s1, r, c);
    CloneParts(s0, s1, r, c);
    NoChildTables(s0, s1, r, c);
    forall k: Key, x | !k.L1? && At(s0, k, x).present ensures At(s1, k, x).present {
      OtherTable(s0, s1, r, c, k, x);
    }
    NewTables(s0, s1, r, c);
    hide CloneTabs, CloneFrames, CloneCells, CloneRefs;
    TreesKept(s0, s1);
  }

  lemma NewTables(s0: VM, s1: VM, r: Frame, c: Frame)
    requires Forked(s0, s1, r, c)
    ensures forall k :: k in s0.tab ==> k in s1.tab && s1.tab[k] == s0.tab[k]
    ensures forall k :: k in s1.tab && k !in s0.tab ==>
              Linked(s1, k) && L4(k.root) in s1.tab && (k.L4? ==> s1.tab[k] == k.root)
  {
    hide CloneInv, CopiedBelow, CompleteBelow, PrefixBelow;
    CloneParts(s0, s1, r, c);
    hide CloneCells, CloneRefs, CloneFrames, Good, Trees;
    forall k | k in s1.tab && k !in s0.tab
      ensures Linked(s1, k) && L4(k.root) in s1.tab && (k.L4? ==> s1.tab[k] == k.root)
    {
      assert k.root == c;
      assert k.L4? || StrictlyBelow(L4(c), k);
    }
  }

  /** The mappers of a frame after the clone: as before, and the child if it has the page. */
  lemma ForkedMappers(s0: VM, s1: VM, r: Frame, c: Frame, v: VPage, f: Frame)
    requires Forked(s0, s1, r, c) && InUserHalf(v)
    ensures c !in Mappers(s0, v, f)
    ensures Mappers(s1, v, f) == Mappers(s0, v, f) + (if Maps(s1, c, v, f) then {c} else {})
  {
    hide Forked, Pte, Mappers;
    ForkedPte(s0, s1, r, c, c, v);
    MappersIff(s0, v, f, c);
    var m0, m1 := Mappers(s0, v, f), Mappers(s1, v, f);
    forall q ensures q in m1 <==> q in m0 || (q == c && Maps(s1, c, v, f)) {
      ForkedPte(s0, s1, r, c, q, v);
      MappersIff(s0, v, f, q);
      MappersIff(s1, v, f, q);
    }
  }

  lemma ForkedFrame(s0: VM, s1: VM, r: Frame, c: Frame, f: Frame)
    requires Forked(s0, s1, r, c) && FramesOk(s0)
    requires f in s1.own && s1.own[f].Pg?
    ensures FrameOk(s1, f)
  {
    hide Forked, Pte, Mappers;
    ForkedOwn(s0, s1, r, c, f);
    var v := s1.own[f].v;
    ForkedMappers(s0, s1, r, c, v, f);
    assert FrameOk(s0, f);
    ForkedWritable(s0, s1, r, c, f, v);
  }

  lemma ForkedOwn(s0: VM, s1: VM, r: Frame, c: Frame, f: Frame)
    requires Forked(s0, s1, r, c) && f in s1.own && s1.own[f].Pg?
    ensures f in s0.own && s0.own[f] == s1.own[f] && InUserHalf(s1.own[f].v)
    ensures |s0.pmm.rc| == |s1.pmm.rc| == MAX_PAGES
    ensures f < MAX_PAGES ==> s1.pmm.rc[f] == s0.pmm.rc[f] + (if Maps(s1, c, s1.own[f].v, f) then 1 else 0)
  {
    assert f < MAX_PAGES ==> CloneRef(s0, s1, c, f);
  }

  /** A page that is writable after the clone was not shared by it. */
  lemma ForkedWritable(s0: VM, s1: VM, r: Frame, c: Frame, f: Frame, v: VPage)
    requires Forked(s0, s1, r, c) && InUserHalf(v)
    requires forall q, q' :: q in Mappers(s0, v, f) && q' in Mappers(s0, v, f) && Pte(s0, q, v).writable ==> q == q'
    ensures forall q, q' :: q in Mappers(s1, v, f) && q' in Mappers(s1, v, f) && Pte(s1, q, v).writable ==> q == q'
  {
    hide Forked, Pte, Mappers;
    forall q ensures q != r && q != c ==> Pte(s1, q, v) == Pte(s0, q, v) {
      ForkedPte(s0, s1, r, c, q, v);
    }
    ForkedPte(s0, s1, r, c, r, v);
    CellWritable(s0, s1, r, c, f, v);
  }

  lemma CellWritable(s0: VM, s1: VM, r: Frame, c: Frame, f: Frame, v: VPage)
    requires CellRel(Pte(s0, r, v), Pte(s1, r, v), Pte(s1, c, v))
    requires forall q {:trigger Pte(s1, q, v)} :: q != r && q != c ==> Pte(s1, q, v) == Pte(s0, q, v)
    requires forall q, q' :: q in Mappers(s0, v, f) && q' in Mappers(s0, v, f) && Pte(s0, q, v).writable ==> q == q'
    ensures forall q, q' :: q in Mappers(s1, v, f) && q' in Mappers(s1, v, f) && Pte(s1, q, v).writable ==> q == q'
  {
    forall q, q' | q in Mappers(s1, v, f) && q' in Mappers(s1, v, f) && Pte(s1, q, v).writable ensures q == q' {
      MappersIff(s1, v, f, q);
      MappersIff(s1, v, f, q');
      MappersIff(s0, v, f, q);
      MappersIff(s0, v, f, q');
      MappersIff(s0, v, f, r);
    }
  }

  /** Cloning keeps the invariant. */
  lemma ForkedInv(s0: VM, s1: VM, r: Frame, c: Frame)
    requires Inv(s0) && Forked(s0, s1, r, c)
    ensures Inv(s1)
  {
    ForkedTrees(s0, s1, r, c);
    forall f | f in s1.own && s1.own[f].Pg? ensures FrameOk(s1, f) {
      ForkedFrame(s0, s1, r, c, f);
    }
  }

  // ---- Teardown ------------------------------------------------------------------

  ghost predicate FrameTorn(s0: VM, p: Pmm, r: Frame, f: Frame)
    requires |p.rc| == |s0.pmm.rc| == MAX_PAGES && f < |p.used| == |s0.pmm.used|
  {
    var rc0 := if f < MAX_PAGES then s0.pmm.rc[f] else 0;
    var rc := if f < MAX_PAGES then p.rc[f] else 0;
    if f in s0.own && s0.own[f].Tab? && s0.own[f].key.root == r then
      !p.used[f] && rc == 0
    else if f in s0.own && s0.own[f].Pg? && Maps(s0, r, s0.own[f].v, f) && f < MAX_PAGES then
      rc + 1 == rc0 && (p.used[f] <==> rc > 0)
    else
      rc == rc0 && p.used[f] == s0.pmm.used[f]
  }

  /** s1 is s0 with the address space of root r torn down. */
  ghost predicate Torn(s0: VM, s1: VM, r: Frame)
  {
    (
      && s1.mem == s0.mem
      && (forall k :: k in s1.tab <==> k in s0.tab && k.root != r)
      && (forall k :: k in s1.tab ==> s1.tab[k] == s0.tab[k])
      && |s1.pmm.used| == |s0.pmm.used| == |s0.mem| && PmmOk(s1.pmm) && |s0.pmm.rc| == MAX_PAGES
      && s1.pmm.usablePages == s0.pmm.usablePages
      && (forall f :: f in s1.own <==> f in s0.own && f < |s0.mem| && s1.pmm.used[f])
      && (forall f :: f in s1.own ==> s1.own[f] == s0.own[f])
      && (forall f {:trigger FrameTorn(s0, s1.pmm, r, f)} :: 0 <= f < |s0.mem| ==> FrameTorn(s0, s1.pmm, r, f))
      && (forall f :: |s0.mem| <= f < MAX_PAGES ==> s1.pmm.rc[f] == s0.pmm.rc[f])
    ) == true
  }

  /** Every table under the root and the root itself were given back, and every
      page was dropped. */
  lemma TearingEnd(s0: VM, s1: VM, r: Frame, gone: set<Key>, seen: set<VPage>)
    requires L4(r) in s0.tab && Tearing(s0, s1.pmm, r, gone + {L4(r)}, seen)
    requires Done(s0, L4(r), 512, {}, {}, gone, seen)
    requires s1.mem == s0.mem
    requires s1.tab == map k | k in s0.tab && k.root != r :: s0.tab[k]
    requires s1.own == map f | f in s0.own && f < |s1.pmm.used| && s1.pmm.used[f] :: s0.own[f]
    ensures Torn(s0, s1, r)
  {
    forall f | 0 <= f < |s0.mem| ensures FrameTorn(s0, s1.pmm, r, f) {
      assert FrameNow(s0, s1.pmm, r, gone + {L4(r)}, seen, f);
      TearingEndFrame(s0, s1.pmm, r, gone, seen, f);
    }
  }

  lemma TearingEndFrame(s0: VM, p: Pmm, r: Frame, gone: set<Key>, seen: set<VPage>, f: Frame)
    requires |p.rc| == |s0.pmm.rc| == MAX_PAGES && f < |p.used| == |s0.pmm.used|
    requires PlacesOk(s0.tab, s0.own, |s0.mem|) && OwnersOk(s0.tab, s0.own, s0.pmm.used)
    requires FrameNow(s0, p, r, gone + {L4(r)}, seen, f)
    requires Done(s0, L4(r), 512, {}, {}, gone, seen)
    ensures FrameTorn(s0, p, r, f)
  {
    if f in s0.own && s0.own[f].Tab? {
      var j := s0.own[f].key;
      assert KeyOk(j);
      assert j.root == r ==> j == L4(r) || Under(s0, L4(r), 512, j);
      assert j.root == r <==> j in gone + {L4(r)};
    } else if f in s0.own && Maps(s0, r, s0.own[f].v, f) {
      assert PageUnder(s0, L4(r), 512, s0.own[f].v);
    }
  }

  lemma TornAt(s0: VM, s1: VM, r: Frame, k: Key, x: nat)
    requires Torn(s0, s1, r)
    ensures At(s1, k, x) == if k.root == r then ZERO else At(s0, k, x)
  {
  }

  /** A page that another space maps is still there, and still counted. */
  lemma TornShared(s0: VM, s1: VM, r: Frame, q: Frame, v: VPage, f: Frame)
    requires Inv(s0) && Torn(s0, s1, r) && InUserHalf(v) && q != r && Maps(s0, q, v, f)
    ensures f in s1.own && s1.own[f] == Pg(v)
  {
    MappedHasRef(s0, q, v, f);
    assert FrameTorn(s0, s1.pmm, r, f);
    if Maps(s0, r, v, f) {
      MappedHasRef(s0, r, v, f);
      MappersIff(s0, v, f, q);
    }
  }

  lemma TornGood(s0: VM, s1: VM, r: Frame)
    requires Inv(s0) && Torn(s0, s1, r)
    ensures Good(s1)
  {
    InvTrees(s0);
    TreesGood(s0);
    TornPlaces(s0, s1, r);
    TornEntries(s0, s1, r);
    hide Inv, Trees, PlacesOk, OwnersOk, EntriesOk;
    TornShape(s0, s1, r);
    hide Torn;
    GoodWhole(s1);
  }

  lemma TornPlaces(s0: VM, s1: VM, r: Frame)
    requires Good(s0) && Torn(s0, s1, r)
    ensures PlacesOk(s1.tab, s1.own, |s1.mem|) && OwnersOk(s1.tab, s1.own, s1.pmm.used)
  {
    GoodParts(s0);
    hide Good, EntriesOk, PmmOk;
    forall k | k in s1.tab ensures KeyOk(k) && 0 < s1.tab[k] < |s1.mem| && s1.tab[k] in s1.own && s1.own[s1.tab[k]] == Tab(k) {
      assert FrameTorn(s0, s1.pmm, r, s0.tab[k]);
    }
    forall f | f in s1.own && s1.own[f].Tab? ensures s1.own[f].key in s1.tab && s1.tab[s1.own[f].key] == f {
      assert FrameTorn(s0, s1.pmm, r, f);
    }
  }

  lemma TornEntries(s0: VM, s1: VM, r: Frame)
    requires Inv(s0) && Torn(s0, s1, r)
    ensures EntriesOk(s1)
  {
    InvTrees(s0);
    TreesGood(s0);
    GoodParts(s0);
    hide Inv, Trees, Good, PlacesOk, OwnersOk, PmmOk;
    forall k: Key, x | !k.L1? && 0 <= x < Span(k) ensures InnerOk(s1, k, x) {
      TornAt(s0, s1, r, k, x);
      assert InnerOk(s0, k, x);
    }
    forall k: Key, x | k.L1? && Ix(x) ensures LeafOk(s1, k, x) {
      TornAt(s0, s1, r, k, x);
      assert LeafOk(s0, k, x);
      if k.root != r && UserPage(At(s0, k, x)) {
        assert k in s0.tab;
        assert TableOf(k.root, Leaf(k, x)) == k;
        TableKey(s0, k);
        TornShared(s0, s1, r, k.root, Leaf(k, x), At(s0, k, x).pfn);
      }
    }
  }

  lemma TableKey(s: VM, k: Key)
    requires Inv(s) && k in s.tab
    ensures KeyOk(k)
  {
  }

  lemma TornFrame(s0: VM, s1: VM, r: Frame, f: Frame)
    requires Inv(s0) && Torn(s0, s1, r) && f in s1.own && s1.own[f].Pg?
    ensures FrameOk(s1, f)
  {
    var v := s1.own[f].v;
    assert FrameOk(s0, f);
    var m0, m1 := Mappers(s0, v, f), Mappers(s1, v, f);
    forall q ensures q in m1 <==> q in m0 - {r} {
      MappersIff(s0, v, f, q);
      MappersIff(s1, v, f, q);
      TornAt(s0, s1, r, TableOf(q, v), v.d);
    }
    assert m1 == m0 - {r};
    MappersIff(s0, v, f, r);
    assert FrameTorn(s0, s1.pmm, r, f);
    forall q, q' | q in m1 && q' in m1 && Pte(s1, q, v).writable ensures q == q' {
      TornAt(s0, s1, r, TableOf(q, v), v.d);
    }
  }

  /** Tearing a space down keeps the invariant for the others. */
  lemma TornInv(s0: VM, s1: VM, r: Frame)
    requires Inv(s0) && Torn(s0, s1, r)
    ensures Inv(s1)
  {
    TornTrees(s0, s1, r);
    hide Trees, Torn;
    forall f | f in s1.own && s1.own[f].Pg? ensures FrameOk(s1, f) {
      TornFrame(s0, s1, r, f);
    }
  }

  lemma TornTrees(s0: VM, s1: VM, r: Frame)
    requires Inv(s0) && Torn(s0, s1, r)
    ensures Trees(s1)
  {
    TornGood(s0, s1, r);
    InvTrees(s0);
    hide Inv, Good;
    forall k | k in s1.tab ensures Linked(s1, k) && L4(k.root) in s1.tab {
      assert Linked(s0, k);
      if !k.L4? { TornAt(s0, s1, r, Parent(k), Slot(k)); }
    }
  }

  /** Cloning and then destroying the clone gives back the very same allocator
      state - every reference count, every bit of the bitmap and both counters -
      whatever allocations failed inside the clone. */
  lemma CloneDestroyRestores(s0: VM, s1: VM, s2: VM, r: Frame, c: Frame)
    requires Inv(s0) && Forked(s0, s1, r, c) && Torn(s1, s2, c)
    ensures s2.pmm == s0.pmm
  {
    ForkedShape(s0, s1, r, c);
    TornShape(s1, s2, c);
    hide Inv, Forked, Torn, PmmOk;
    forall f | 0 <= f < |s0.pmm.used|
      ensures s2.pmm.used[f] == s0.pmm.used[f] && (f < MAX_PAGES ==> s2.pmm.rc[f] == s0.pmm.rc[f])
    {
      CloneDestroyFrame(s0, s1, s2, r, c, f);
    }
    SamePmm(s0.pmm, s2.pmm);
  }

  lemma SamePmm(p: Pmm, q: Pmm)
    requires PmmOk(p) && PmmOk(q) && q.usablePages == p.usablePages && |q.used| == |p.used|
    requires forall f :: 0 <= f < |p.used| ==> q.used[f] == p.used[f]
    requires forall f :: 0 <= f < MAX_PAGES ==> q.rc[f] == p.rc[f]
    ensures p == q
  {
    assert p.used == q.used && p.rc == q.rc;
    CountersFollowBitmap(p, q);
  }

  lemma ForkedShape(s0: VM, s1: VM, r: Frame, c: Frame)
    requires Forked(s0, s1, r, c)
    ensures PmmOk(s0.pmm) && s1.pmm.usablePages == s0.pmm.usablePages
    ensures |s1.pmm.used| == |s0.pmm.used| == |s1.mem| == |s0.mem| && |s1.pmm.rc| == |s0.pmm.rc| == MAX_PAGES
    ensures forall f :: |s0.pmm.used| <= f < MAX_PAGES ==> s1.pmm.rc[f] == s0.pmm.rc[f]
  {
    forall f | |s0.mem| <= f < MAX_PAGES ensures s1.pmm.rc[f] == s0.pmm.rc[f] {
      assert CloneRef(s0, s1, c, f);
    }
  }

  lemma TornShape(s0: VM, s1: VM, r: Frame)
    requires Torn(s0, s1, r)
    ensures PmmOk(s1.pmm) && s1.pmm.usablePages == s0.pmm.usablePages
    ensures |s1.pmm.used| == |s0.pmm.used| == |s1.mem| == |s0.mem| && |s1.pmm.rc| == |s0.pmm.rc| == MAX_PAGES
    ensures forall f :: |s0.pmm.used| <= f < MAX_PAGES ==> s1.pmm.rc[f] == s0.pmm.rc[f]
  {
  }

  lemma CloneDestroyFrame(s0: VM, s1: VM, s2: VM, r: Frame, c: Frame, f: Frame)
    requires Inv(s0) && Forked(s0, s1, r, c) && Torn(s1, s2, c) && f < |s0.mem|
    ensures s2.pmm.used[f] == s0.pmm.used[f] && (f < MAX_PAGES ==> s2.pmm.rc[f] == s0.pmm.rc[f])
  {
    hide Inv, Forked, Torn, Trees, PmmOk, Pte;
    ForkedFrameAt(s0, s1, r, c, f);
    TornFrameAt(s1, s2, c, f);
    if f in s0.own && s0.own[f].Pg? {
      var v := s0.own[f].v;
      ForkedPte(s0, s1, r, c, r, v);
      if Maps(s1, c, v, f) { MappedHasRef(s0, r, v, f); }
    }
  }

  lemma TornFrameAt(s0: VM, s1: VM, r: Frame, f: Frame)
    requires Torn(s0, s1, r) && f < |s0.mem|
    ensures |s1.pmm.rc| == |s0.pmm.rc| == MAX_PAGES && f < |s1.pmm.used| == |s0.pmm.used| && FrameTorn(s0, s1.pmm, r, f)
  {
  }

  /** One frame before and after a clone. */
  lemma ForkedFrameAt(s0: VM, s1: VM, r: Frame, c: Frame, f: Frame)
    requires Forked(s0, s1, r, c) && f < |s0.mem|
    ensures |s0.pmm.rc| == |s1.pmm.rc| == MAX_PAGES && |s0.pmm.used| == |s1.pmm.used| == |s1.mem| == |s0.mem|
    ensures f < MAX_PAGES ==> CloneRef(s0, s1, c, f)
    ensures f in s0.own ==> f in s1.own && s1.own[f] == s0.own[f] && s0.pmm.used[f] && s1.pmm.used[f]
    ensures f in s0.own && s0.own[f].Pg? ==> InUserHalf(s0.own[f].v)
    ensures f in s0.own && s0.own[f].Tab? ==> s0.own[f].key.root != c
    ensures f in s1.own && f !in s0.own ==> s1.own[f].Tab? && s1.own[f].key.root == c
    ensures f in s1.own && f !in s0.own ==> !s0.pmm.used[f] && (f < MAX_PAGES ==> s0.pmm.rc[f] == 0)
    ensures f !in s1.own ==> s1.pmm.used[f] == s0.pmm.used[f]
  {
  }
}
