/**
 mm/vmm.c: page tables, copy-on-write cloning, page faults and teardown over
 one physical memory.
 */
module Vmm {
  import opened Options
  import opened Sizes
  import opened PmmSpec
  import opened PageTables
  import opened Vmas
  import opened VmSteps
  import opened CloneSteps
  import opened DestroySteps
  import opened SpaceOps
  import opened ForkCounts
  import opened CowSteps
  import opened CowMachine

  const STACK_MAX: nat := 8 * 1024 * 1024

  /** The part of the PCB the fault handler uses. */
  class ProcessMemory {
    var root: Frame
    var stackTop: nat
    var stackLimit: nat
    var heapBase: nat
    var heapEnd: nat
    var vmas: seq<Vma>
  }

  /** 64-bit subtraction. */
  function Sub64(a: nat, b: nat): nat
    requires b <= U64
  {
    if a >= b then a - b else a - b + U64
  }

  /** The 8 MiB below the top of the stack. */
  predicate InStack(top: nat, addr: nat) { 0x80_0000 <= top && top - 0x80_0000 <= addr <= top }

  /** An access the hardware refuses. */
  predicate Refused(e: Word, write: bool) { !(e.present && e.user && (write ==> e.writable)) }

  class MemoryManager {
    var mem: Ram
    var pmm: Pmm
    ghost var tab: map<Key, Frame>
    ghost var own: map<Frame, Owner>

    ghost function S(): VM
      reads this
    {
      VM(mem, pmm, tab, own)
    }

    /** Memory and allocator before the first address space. */
    constructor (ram: Ram, p: Pmm)
      ensures S() == VM(ram, p, map[], map[])
    {
      mem, pmm, tab, own := ram, p, map[], map[];
    }

    /** pmm_alloc_page, which also clears the frame. */
    method AllocPage() returns (f: Frame)
      requires Good(S())
      modifies this`mem, this`pmm
      ensures f == Alloc(old(pmm)).1
      ensures f == 0 ==> S() == old(S()) && FreePageCount(pmm) == 0
      ensures f != 0 ==> f < |old(mem)| && S() == Taken(old(S()), f) && FreePageCount(pmm) == FreePageCount(old(pmm)) - 1 >= 0
    {
      AllocOk(pmm);
      var (p, g) := Alloc(pmm);
      f := g;
      pmm := p;
      if f != 0 {
        mem := mem[f := ZeroPage()];
      }
    }

    // ---- Page tables -----------------------------------------------------------------

    /** vmm_get_next_level. */
    method NextLevel(t: Frame, x: nat, create: bool, ghost k: Key) returns (r: Option<Frame>)
      requires Trees(S()) && k in tab && !k.L1? && t == tab[k] && 0 <= x < Span(k)
      modifies this
      ensures Trees(S()) && Extends(old(S()), S())
      ensures !create ==> S() == old(S())
      ensures r.Some? ==> Child(k, x) in tab && r.value == tab[Child(k, x)]
      ensures r.None? ==> S() == old(S()) && Child(k, x) !in tab && (create ==> FreePageCount(pmm) == 0)
      ensures Child(k, x) in old(tab) ==> r.Some? && S() == old(S())
      ensures r.Some? && Child(k, x) !in old(tab) ==>
                tab.Keys == old(tab).Keys + {Child(k, x)} && FreePageCount(pmm) == FreePageCount(old(pmm)) - 1 >= 0
    {
      hide Trees, Extends, Good, Grown;
      ghost var s := S();
      ExtendsSelf(s);
      SlotFacts(s, k, x);
      var e := mem[t][x];
      if e.present {
        return Some(e.pfn);
      }
      if !create {
        return None;
      }
      var f := AddTableAt(t, x, k);
      if f == 0 {
        return None;
      }
      GrownOk(s, k, x, f);
      GrownExtends(s, k, x, f);
      r := Some(f);
    }

    /** The part of vmm_get_next_level that allocates and installs a table. */
    method AddTableAt(t: Frame, x: nat, ghost k: Key) returns (f: Frame)
      requires Good(S()) && k in tab && !k.L1? && t == tab[k] && 0 < t < |mem| && Ix(x)
      modifies this
      ensures f == Alloc(old(pmm)).1
      ensures f == 0 ==> S() == old(S()) && FreePageCount(pmm) == 0
      ensures f != 0 ==> f < |old(mem)| && S() == Grown(old(S()), k, x, f)
      ensures f != 0 ==> tab == old(tab)[Child(k, x) := f] && FreePageCount(pmm) == FreePageCount(old(pmm)) - 1 >= 0
    {
      hide Good, Alloc;
      f := AllocPage();
      if f != 0 {
        mem := mem[f := ZeroPage()];
        mem := mem[t := mem[t][x := TableEntry(f)]];
        tab := tab[Child(k, x) := f];
        own := own[f := Tab(Child(k, x))];
        assert old(mem)[f := ZeroPage()][f := ZeroPage()] == old(mem)[f := ZeroPage()];
      }
    }

    /** The three steps down to the leaf table of page v, with which vmm_map_page,
        vmm_unmap_page, vmm_get_phys and is_cow_page begin. */
    method FindPt(root: Frame, v: VPage, create: bool) returns (t: Option<Frame>)
      requires Trees(S()) && L4(root) in tab && InUserHalf(v)
      modifies this
      ensures Trees(S()) && Extends(old(S()), S())
      ensures !create ==> S() == old(S())
      ensures t.Some? ==> TableOf(root, v) in tab && t.value == tab[TableOf(root, v)]
      ensures t.None? ==> TableOf(root, v) !in tab && (create ==> FreePageCount(pmm) == 0)
      ensures TableOf(root, v) in old(tab) ==> S() == old(S())
      ensures create ==> (t.Some? <==> FreePageCount(old(pmm)) >= MissingTables(old(tab), root, v))
      ensures create && t.Some? ==> FreePageCount(pmm) == FreePageCount(old(pmm)) - MissingTables(old(tab), root, v)
    {
      hide Trees, Extends, FreePageCount;
      ghost var s := S();
      FreeNat(s);
      PathFacts(s, root, v);
      var pdpt := NextLevel(root, v.a, create, L4(root));
      if pdpt.None? {
        return None;
      }
      ghost var s1 := S();
      PathFacts(s1, root, v);
      ExtendsKeeps(s, s1);
      var pd := NextLevel(pdpt.value, v.b, create, L3(root, v.a));
      ExtendsTransitive(s, s1, S());
      if pd.None? {
        return None;
      }
      ghost var s2 := S();
      PathFacts(s2, root, v);
      t := NextLevel(pd.value, v.c, create, L2(root, v.a, v.b));
      ExtendsTransitive(s, s2, S());
    }

    /** vmm_get_phys, with the root in CR3 as an argument. */
    method GetPhys(root: Frame, virt: nat) returns (phys: nat)
      requires Trees(S()) && L4(root) in tab && InUserHalf(PageOf(virt))
      modifies this
      ensures S() == old(S())
      ensures var e := Translate(mem, root, PageOf(virt));
              phys == if e.present then e.pfn * 4096 + virt % 4096 else 0
    {
      TranslateIsPte(S(), root, PageOf(virt));
      hide Trees, Translate;
      var t := FindPt(root, PageOf(virt), false);
      if t.None? {
        return 0;
      }
      PathFacts(S(), root, PageOf(virt));
      var e := mem[t.value][PageOf(virt).d];
      phys := if e.present then e.pfn * 4096 + virt % 4096 else 0;
    }

    /** vmm_map_page: on success page v of root translates to e, on exhaustion
        nothing does differently; no other page of any space is affected.  The trees
        stay as they have to be if frame e.pfn serves nothing else. */
    method MapPage(root: Frame, v: VPage, e: Word) returns (ghost ok: bool, ghost mid: VM)
      requires Trees(S()) && L4(root) in tab && InUserHalf(v)
      modifies this
      ensures Trees(mid) && Extends(old(S()), mid)
      ensures Mappable(old(S()), v, e) ==> Trees(S())
      ensures !ok ==> S() == mid && FreePageCount(pmm) == 0
      ensures ok ==> TableOf(root, v) in mid.tab && mid.tab[TableOf(root, v)] < |mid.mem|
      ensures ok ==> S() == WithEntry(if Mappable(old(S()), v, e) then WithPage(mid, v, e) else mid, TableOf(root, v), v.d, e)
      ensures TableOf(root, v) in old(tab) ==> ok && mid == old(S())
      ensures ok <==> FreePageCount(old(pmm)) >= MissingTables(old(tab), root, v)
      ensures ok ==> FreePageCount(pmm) == FreePageCount(old(pmm)) - MissingTables(old(tab), root, v)
      ensures forall q, u :: L4(q) in old(tab) && InUserHalf(u) ==>
                Translate(mem, q, u) == if ok && q == root && u == v then e else old(Translate(mem, q, u))
    {
      hide Trees, Extends, Mappable, Translate, FreePageCount, MissingTables;
      ghost var s := S();
      var t := FindPt(root, v, true);
      mid := S();
      ok := t.Some?;
      ExtendsKeeps(s, mid);
      LeavesKept(s, mid);
      SameTranslations(s, mid, false, root, v, e);
      if t.Some? {
        PathFacts(mid, root, v);
        if Mappable(s, v, e) {
          MapTrees(s, mid, root, v, e);
          own := WithPage(mid, v, e).own;
        }
        mem := mem[t.value := mem[t.value][v.d := e]];
        forall q, u | L4(q) in s.tab && InUserHalf(u)
          ensures Translate(mem, q, u) == if q == root && u == v then e else Translate(mid.mem, q, u)
        {
          WriteTranslates(mid, root, v, e, q, u);
        }
      }
    }

    /** vmm_unmap_page: exactly one translation goes away. */
    method UnmapPage(root: Frame, v: VPage)
      requires Trees(S()) && L4(root) in tab && InUserHalf(v)
      modifies this
      ensures Trees(S()) && pmm == old(pmm) && tab == old(tab) && own == old(own)
      ensures forall q, u :: L4(q) in old(tab) && InUserHalf(u) ==>
                Translate(mem, q, u) == if q == root && u == v then ZERO else old(Translate(mem, q, u))
    {
      hide Trees, Translate;
      ghost var s := S();
      var t := FindPt(root, v, false);
      if t.Some? {
        LeafWriteFacts(s, TableOf(root, v), v.d, ZERO);
        mem := mem[t.value := mem[t.value][v.d := ZERO]];
        assert S() == WithEntry(s, TableOf(root, v), v.d, ZERO);
      }
      SameTranslations(s, S(), true, root, v, ZERO);
    }

    // ---- Page faults --------------------------------------------------------------------

    /** is_cow_page: present, user and not writable. */
    method IsCowPage(root: Frame, v: VPage) returns (cow: bool)
      requires Inv(S()) && L4(root) in tab && InUserHalf(v)
      modifies this
      ensures S() == old(S())
      ensures var e := Translate(mem, root, v); cow <==> e.present && e.user && !e.writable
    {
      InvTrees(S());
      TranslateIsPte(S(), root, v);
      hide Inv, Trees, Translate;
      var t := FindPt(root, v, false);
      cow := false;
      if t.Some? {
        PathFacts(S(), root, v);
        var e := mem[t.value][v.d];
        cow := e.present && e.user && !e.writable;
      }
    }

    /** cow_handle_fault, sole owner: the entry becomes writable. */
    method GrantWrite(root: Frame, v: VPage)
      requires Inv(S()) && InUserHalf(v) && UserPage(Pte(S(), root, v)) && RefCount'(pmm, Pte(S(), root, v).pfn) == 1
      modifies this
      ensures Upgraded(old(S()), S(), root, v)
    {
      hide Inv, Trees, Good, Translate;
      CowFacts(S(), root, v);
      var t := FindPt(root, v, false);
      var e := mem[t.value][v.d];
      mem := mem[t.value := mem[t.value][v.d := e.(writable := true)]];
    }

    /** cow_handle_fault, shared page: the writer gets a copy. */
    method CopyPage(root: Frame, v: VPage, f: Frame) returns (g: Frame)
      requires Inv(S()) && InUserHalf(v) && UserPage(Pte(S(), root, v)) && Pte(S(), root, v).pfn == f
      requires RefCount'(pmm, f) != 1
      modifies this
      ensures g == 0 ==> S() == old(S()) && FreePageCount(pmm) == 0
      ensures g != 0 ==> Split(old(S()), S(), root, v, g) && FreePageCount(old(pmm)) > 0
    {
      hide FreePageCount, Inv, Trees, Good, Translate, Mappable, Extends, Alloc, Unref, PmmOk;
      ghost var s := S();
      CowFacts(s, root, v);
      g := AllocPage();
      if g != 0 {
        FreshIsOther(s, root, v, g);
        mem := mem[g := mem[f]];
        assert mem == s.mem[g := s.mem[f]];
        CopyReady(s, S(), root, v, g);
        ghost var s1 := S();
        ghost var ok, mid := MapPage(root, v, PageEntry(g, true));
        pmm := Unref(pmm, f);
        assert S() == WithEntry(s1.(pmm := pmm, own := s.own[g := Pg(v)]), TableOf(root, v), v.d, PageEntry(g, true));
      }
    }

    /** cow_handle_fault. */
    method CowHandleFault(root: Frame, virt: nat)
      requires Inv(S()) && InUserHalf(PageOf(virt)) && UserPage(Pte(S(), root, PageOf(virt)))
      modifies this
      ensures Inv(S())
      ensures if RefCount'(old(pmm), Pte(old(S()), root, PageOf(virt)).pfn) == 1 || FreePageCount(old(pmm)) > 0 then
                && Step(old(S()), WriteFault(root, PageOf(virt)), S())
                && UserPage(Pte(S(), root, PageOf(virt))) && Pte(S(), root, PageOf(virt)).writable
              else S() == old(S()) && FreePageCount(pmm) == 0
    {
      hide Inv, Trees, Good, Translate, Split, Upgraded, FreePageCount;
      ghost var s := S();
      var v := PageOf(virt);
      CowFacts(s, root, v);
      PageBase(virt);
      hide PageOf;
      var phys := GetPhys(root, virt - virt % 4096);
      assert phys == Pte(s, root, v).pfn * 4096;
      if phys == 0 {
        return;
      }
      var f := phys / 4096;
      var refcount := RefCount(pmm, f);
      if refcount == 1 {
        GrantWrite(root, v);
        UpgradedInv(s, S(), root, v);
        UpgradedEntry(s, S(), root, v);
      } else {
        var g := CopyPage(root, v, f);
        if g != 0 {
          SplitInv(s, S(), root, v, g);
          SplitEntry(s, S(), root, v, g);
        }
      }
    }

    /** map_user_page: a cleared frame at page v, unless memory runs out. */
    method MapUserPage(root: Frame, v: VPage, writable: bool) returns (ghost ok: bool)
      requires Inv(S()) && L4(root) in tab && InUserHalf(v) && !UserPage(Pte(S(), root, v))
      modifies this
      ensures Inv(S())
      ensures ok ==> Step(old(S()), Demand(root, v), S()) && UserPage(Pte(S(), root, v))
      ensures ok ==> Pte(S(), root, v).writable == writable
      ensures !ok ==> Step(old(S()), NoMemory, S()) && FreePageCount(pmm) == 0
      ensures ok <==> FreePageCount(old(pmm)) >= 1 + MissingTables(old(tab), root, v)
      ensures ok ==> FreePageCount(pmm) == FreePageCount(old(pmm)) - 1 - MissingTables(old(tab), root, v)
    {
      hide Inv, Trees, Good, Translate, Extends, Mappable, Placed, Taken, Alloc, FreePageCount, MissingTables;
      ghost var s := S();
      InvTrees(s);
      ExtendsSelf(s);
      ok := false;
      var g := AllocPage();
      if g != 0 {
        ghost var s1 := S();
        DemandReady(s, s1, v, g, writable);
        ghost var mid;
        ok, mid := MapPage(root, v, PageEntry(g, writable));
        ExtendsTransitive(s, s1, mid);
        if ok {
          LeavesKept(s, s1);
          DemandDone(s1, mid, S(), root, v, g, writable);
          PlacedInv(mid, S(), root, v, g, writable);
          PlacedEntry(mid, S(), root, v, g, writable);
        } else {
          ExtendsFrames(s, mid);
        }
      }
    }

    /** page_fault_handler for a user access at addr that the hardware refused.  A write
        to a user page is a copy-on-write fault; the 8 MiB under stackTop grow or are
        filled in, then come the areas and the heap, and anything else kills.  Unless
        the process is killed, the page is there afterwards exactly if there were
        frames for it; nobody's other pages change. */
    method PageFault(proc: ProcessMemory, addr: nat, write: bool) returns (killed: bool)
      requires Inv(S()) && L4(proc.root) in tab && InUserHalf(PageOf(addr))
      requires Refused(Translate(mem, proc.root, PageOf(addr)), write)
      modifies this, proc`stackLimit
      ensures Inv(S())
      ensures killed <==> var e := old(Translate(mem, proc.root, PageOf(addr)));
                && !(write && e.present && e.user)
                && (forall a :: a in proc.vmas ==> !(a.start <= addr < a.end))
                && !(proc.heapBase <= addr < proc.heapEnd)
                && (InStack(proc.stackTop, addr) ==> addr >= old(proc.stackLimit) && e.present && e.pfn != 0)
      ensures killed ==> S() == old(S())
      ensures proc.stackLimit == var e := old(Translate(mem, proc.root, PageOf(addr)));
                if InStack(proc.stackTop, addr) && addr < old(proc.stackLimit) && !(write && e.present && e.user)
                then addr - addr % 4096 else old(proc.stackLimit)
      ensures !killed ==> var v := PageOf(addr); var e := old(Translate(mem, proc.root, v));
                if e.present && e.user then
                  if RefCount'(old(pmm), e.pfn) == 1 || FreePageCount(old(pmm)) > 0 then
                    && Step(old(S()), WriteFault(proc.root, v), S())
                    && UserPage(Pte(S(), proc.root, v)) && Pte(S(), proc.root, v).writable
                  else S() == old(S())
                else if FreePageCount(old(pmm)) >= 1 + MissingTables(old(tab), proc.root, v) then
                  && Step(old(S()), Demand(proc.root, v), S()) && UserPage(Pte(S(), proc.root, v))
                  && Pte(S(), proc.root, v).writable ==
                     if InStack(proc.stackTop, addr) && (addr < old(proc.stackLimit) || !e.present || e.pfn == 0) then true
                     else if FindVma(proc.vmas, addr).Some? then FindVma(proc.vmas, addr).value.writable
                     else true
                else Step(old(S()), NoMemory, S()) && FreePageCount(pmm) == 0
    {
      hide Inv, Trees, Translate, PageOf, Step, Good, FreePageCount, MissingTables;
      ghost var s := S();
      killed := false;
      var v := PageOf(addr);
      PteOf(s, proc.root, v);
      var cow := IsCowPage(proc.root, v);
      if write && cow {
        CowHandleFault(proc.root, addr);
        return;
      }
      if addr <= proc.stackTop && addr >= Sub64(proc.stackTop, STACK_MAX) {
        if addr < proc.stackLimit {
          ghost var ok := MapUserPage(proc.root, v, true);
          proc.stackLimit := addr - addr % 4096;
          return;
        }
        PageBase(addr);
        var phys := GetPhys(proc.root, addr - addr % 4096);
        if phys == 0 {
          ghost var ok := MapUserPage(proc.root, v, true);
          return;
        }
      }
      var vma := FindVma(proc.vmas, addr);
      if vma.Some? {
        ghost var ok := MapUserPage(proc.root, v, vma.value.writable);
        return;
      }
      if proc.heapBase <= addr < proc.heapEnd {
        ghost var ok := MapUserPage(proc.root, v, true);
        return;
      }
      killed := true;
    }

    /** A store by user code: through a writable entry it happens at once; through
        a read-only one after the fault handler made the page the writer's own. */
    method UserStore(root: Frame, virt: nat, i: nat, w: Word) returns (done: bool)
      requires Inv(S()) && L4(root) in tab && InUserHalf(PageOf(virt)) && Ix(i)
      modifies this
      ensures Inv(S())
      ensures done ==> Addr(root, PageOf(virt)) in Abs(old(S())) &&
                       Abs(S()) == Eager(Abs(old(S())), Store(root, PageOf(virt), i, w))
      ensures !done ==> S() == old(S()) && (UserPage(Pte(S(), root, PageOf(virt))) ==> FreePageCount(pmm) == 0)
    {
      hide Inv, Trees, Translate, Abs, PageOf, Step, Good;
      ghost var s := S();
      var v := PageOf(virt);
      PteOf(s, root, v);
      var cow := IsCowPage(root, v);
      if cow {
        CowFacts(s, root, v);
        CowHandleFault(root, virt);
        FaultView(s, S(), root, v);
      }
      done := StoreThrough(root, v, i, w);
    }

    /** The hardware side of a store: it happens only through a writable user entry. */
    method StoreThrough(root: Frame, v: VPage, i: nat, w: Word) returns (done: bool)
      requires Inv(S()) && L4(root) in tab && InUserHalf(v) && Ix(i)
      modifies this
      ensures Inv(S()) && (done <==> UserPage(Pte(old(S()), root, v)) && Pte(old(S()), root, v).writable)
      ensures done <==> Access(old(mem), root, v, true)
      ensures !done ==> S() == old(S())
      ensures done ==> Addr(root, v) in Abs(old(S())) &&
                       Abs(S()) == Eager(Abs(old(S())), Store(root, v, i, w))
    {
      hide Inv, Trees, Translate, Abs, Good, Access;
      ghost var s := S();
      PteOf(s, root, v);
      StoreAccess(s, root, v);
      var t := FindPt(root, v, false);
      done := false;
      if t.Some? {
        var e := mem[t.value][v.d];
        if e.present && e.user && e.writable {
          CowFacts(s, root, v);
          mem := mem[e.pfn := mem[e.pfn][i := w]];
          assert Stored(s, S(), root, v, i, w);
          StoredInv(s, S(), root, v, i, w);
          StoredAbs(s, S(), root, v, i, w);
          done := true;
        }
      }
    }

    // ---- Copy-on-write clone ---------------------------------------------------

    /** One iteration of vmm_clone_pt. */
    method CloneEntry(t: Frame, n: Frame, i: nat, ghost k: Key, ghost c: Frame)
      requires Good(S()) && k.L1? && k in tab && In(k, c) in tab && c != k.root && Ix(i)
      requires t == tab[k] && n == tab[In(k, c)]
      modifies this`mem, this`pmm
      ensures S() == if At(old(S()), k, i).present then CellDone(old(S()), k, i, c) else old(S())
    {
      assert own[t] == Tab(k) && own[n] == Tab(In(k, c));
      var e := mem[t][i];
      if e.present {
        if e.user && e.writable {
          mem := mem[t := mem[t][i := e.(writable := false)]];
          mem := mem[n := mem[n][i := mem[t][i]]];
          pmm := Ref(pmm, e.pfn);
        } else {
          assert mem[t][i := e] == mem[t];
          mem := mem[n := mem[n][i := e]];
          if e.user {
            pmm := Ref(pmm, e.pfn);
          }
        }
      }
    }

    /** vmm_clone_pt. */
    method ClonePt(t: Frame, n: Frame, ghost s0: VM, ghost k: Key, ghost c: Frame)
      requires CloneInv(s0, S(), k.root, c) && RefRoom(s0, k.root)
      requires k.L1? && k in s0.tab && In(k, c) in tab && t == s0.tab[k] && n == tab[In(k, c)]
      requires Blank(S(), In(k, c))
      modifies this`mem, this`pmm
      ensures PtLoop(s0, old(S()), S(), k, c, 512)
    {
      BlankPt(s0, S(), k, c);
      hide CloneInv, RefRoom, Blank, PtLoop, Good, CellDone;
      for i := 0 to 512
        invariant PtLoop(s0, old(S()), S(), k, c, i)
      {
        ghost var s1 := S();
        PtLoopStep(s0, old(S()), s1, k, c, i);
        CloneEntry(t, n, i, k, c);
      }
    }

    /** A cleared table for key m of the clone, or 0. */
    method AllocTable(ghost s0: VM, ghost r: Frame, ghost c: Frame, ghost m: Key) returns (f: Frame)
      requires CloneInv(s0, S(), r, c)
      requires m !in tab && m.root == c && !m.L4? && KeyOk(m) && In(m, r) in s0.tab
      modifies this
      ensures f == 0 ==> S() == old(S()) && FreePageCount(pmm) == 0
      ensures f != 0 ==> CloneInv(s0, S(), r, c) && TableAdded(old(S()), S(), m) && tab[m] == f
    {
      hide CloneInv, Good, TableAdded, Taken, Alloc;
      ghost var s1 := S();
      CloneGood(s0, s1, r, c);
      f := AllocPage();
      if f != 0 {
        AddTableStep(s0, s1, r, c, m, f);
        tab := tab[m := f];
        own := own[f := Tab(m)];
        assert S() == WithTable(Taken(s1, f), m, f);
      }
    }

    /** The table at child is hung into entry i of the table at n. */
    method HangIn(n: Frame, i: nat, child: Frame, ghost s0: VM, ghost r: Frame, ghost p: Key)
      requires CloneInv(s0, S(), r, p.root) && p in tab && !p.L1? && 0 <= i < Span(p)
      requires Child(p, i) in tab && n == tab[p] && child == tab[Child(p, i)]
      modifies this`mem
      ensures CloneInv(s0, S(), r, p.root) && TableHung(old(S()), S(), p, i, Child(p, i))
    {
      hide CloneInv, Good, Trees;
      CloneGood(s0, S(), r, p.root);
      HangTable(s0, S(), r, p.root, p, i);
      GoodParts(S());
      AtWithEntry(S(), p, i, TableEntry(child));
      mem := mem[n := mem[n][i := TableEntry(child)]];
      assert S() == WithEntry(old(S()), p, i, TableEntry(child));
    }

    /** vmm_clone_pd, vmm_clone_pdpt and the loop of vmm_cow_clone: the same
        loop one level further up, over 512 entries or the lower 256. */
    method CloneTable(t: Frame, n: Frame, level: nat, ghost s0: VM, ghost k: Key, ghost c: Frame)
      requires CloneInv(s0, S(), k.root, c) && RefRoom(s0, k.root)
      requires k in s0.tab && In(k, c) in tab && t == s0.tab[k] && n == tab[In(k, c)]
      requires level == (match k case L4(_) => 4 case L3(_, _) => 3 case L2(_, _, _) => 2 case L1(_, _, _, _) => 1)
      requires Blank(S(), In(k, c))
      modifies this
      ensures TableLoop(s0, old(S()), S(), k, c, 512)
      decreases level
    {
      hide CloneInv, RefRoom, Blank, TableLoop, PtLoop, TableAdded, TableHung;
      ghost var s := S();
      ParentTables(s0, s, c, k, 0);
      if level == 1 {
        ClonePt(t, n, s0, k, c);
        PtIsTable(s0, s, S(), k, c);
        return;
      }
      BlankLoop(s0, s, k, c);
      var span := if level == 4 then 256 else 512;
      for i := 0 to span
        invariant TableLoop(s0, s, S(), k, c, i) && In(k, c) in tab && n == tab[In(k, c)]
      {
        ghost var s1 := S();
        LoopFacts(s0, s, s1, k, c, i);
        ParentTables(s0, s1, c, k, i);
        var e := mem[t][i];
        if e.present && e.user {
          BranchFree(s0, s, s1, k, c, i);
          var child := AllocTable(s0, k.root, c, In(Child(k, i), c));
          if child == 0 {
            TableLoopSkip(s0, s, s1, k, c, i);
          } else {
            ghost var s2 := S();
            ChildBlank(s1, s2, In(k, c), i);
            AddedFacts(s1, s2, In(Child(k, i), c));
            CloneTable(e.pfn, child, level - 1, s0, Child(k, i), c);
            ghost var s3 := S();
            LoopFacts(s0, s2, s3, Child(k, i), c, 512);
            HangIn(n, i, child, s0, k.root, In(k, c));
            TableLoopStep(s0, s, s1, s2, s3, S(), k, c, i);
          }
        } else {
          TableLoopSkip(s0, s, s1, k, c, i);
        }
      }
      TableLoopEnd(s0, s, S(), k, c, span);
    }

    /** vmm_clone_kernel_space: an empty user half and the current kernel half. */
    method CloneKernelSpace(cur: Frame) returns (c: Frame)
      requires Trees(S()) && cur < |pmm.used| && pmm.used[cur]
      modifies this
      ensures c == 0 ==> S() == old(S()) && FreePageCount(pmm) == 0
      ensures c != 0 ==> Created(old(S()), S(), c, cur) && FreePageCount(pmm) == FreePageCount(old(pmm)) - 1 >= 0
    {
      hide FreePageCount;
      c := AllocPage();
      if c == 0 {
        return;
      }
      AllocOk(old(pmm));
      for i := 256 to 512
        invariant |mem| == |old(mem)| && pmm == Alloc(old(pmm)).0 && tab == old(tab) && own == old(own)
        invariant forall f :: 0 <= f < |mem| && f != c ==> mem[f] == old(mem)[f]
        invariant forall x :: 0 <= x < 512 ==> mem[c][x] == if 256 <= x < i then old(mem)[cur][x] else ZERO
      {
        mem := mem[c := mem[c][i := mem[cur][i]]];
      }
      tab := tab[L4(c) := c];
      own := own[c := Tab(L4(c))];
      assert mem[c] == RootPage(old(mem)[cur]);
      assert mem == old(mem)[c := RootPage(old(mem)[cur])];
    }

    /** vmm_cow_clone. */
    method CowClone(cur: Frame, parent: Frame) returns (c: Frame)
      requires Inv(S()) && RefRoom(S(), parent) && L4(parent) in tab && cur < |pmm.used| && pmm.used[cur]
      modifies this
      ensures c == 0 ==> S() == old(S()) && FreePageCount(pmm) == 0
      ensures c != 0 ==> Step(old(S()), Fork(parent, c), S()) && Inv(S())
      ensures c != 0 ==> (AllTables(old(S()), S(), parent, c) <==> FreePageCount(old(pmm)) >= TableCount(old(S()), parent))
      ensures c != 0 ==> cur < |old(mem)| && forall x :: 256 <= x < 512 ==> At(S(), L4(c), x) == old(mem)[cur][x]
    {
      hide Inv, Trees, RefRoom, Created, CreatedShape, CloneInv, Blank, TableLoop, Forked;
      ghost var s0 := S();
      InvTrees(s0);
      c := CloneKernelSpace(cur);
      if c != 0 {
        ghost var s1 := S();
        CreatedFacts(s0, s1, c, cur);
        CreatedKernel(s0, s1, c, cur);
        CloneStart(s0, s1, parent, c);
        RootPlace(s0, s1, parent, c);
        CloneTable(parent, c, 4, s0, L4(parent), c);
        CloneEnd(s0, s1, S(), parent, c);
        ForkedInv(s0, S(), parent, c);
        ForkedExactly(s0, S(), parent, c);
      }
    }

    // ---- Teardown ------------------------------------------------------------------

    /** The loops of vmm_destroy_address_space below the table at t: drop every
        page, give back every table, last the tables of this one. */
    method DropEntries(t: Frame, level: nat, ghost s0: VM, ghost k: Key, ghost gone: set<Key>, ghost seen: set<VPage>)
      returns (ghost gone': set<Key>, ghost seen': set<VPage>)
      requires Tearing(s0, pmm, k.root, gone, seen) && mem == s0.mem
      requires k in s0.tab && t == s0.tab[k]
      requires level == (match k case L4(_) => 4 case L3(_, _) => 3 case L2(_, _, _) => 2 case L1(_, _, _, _) => 1)
      requires Untouched(k, gone, seen)
      modifies this`pmm
      ensures Tearing(s0, pmm, k.root, gone', seen')
      ensures Done(s0, k, 512, gone, seen, gone', seen')
      decreases level
    {
      gone', seen' := gone, seen;
      DoneNothing(s0, k, gone, seen);
      var span := if level == 4 then 256 else 512;
      TearingFacts(s0, pmm, k.root, gone, seen, k);
      hide Tearing, Done, Untouched;
      for i := 0 to span
        invariant Tearing(s0, pmm, k.root, gone', seen')
        invariant Done(s0, k, i, gone, seen, gone', seen')
      {
        TearingEntry(s0, pmm, k.root, gone', seen', k, i);
        var e := mem[t][i];
        if level == 1 {
          EntryUnseen(s0, k, i, gone, seen, gone', seen');
          DropPage(s0, pmm, k.root, gone', seen', Leaf(k, i));
          DoneEntry(s0, k, i, gone, seen, gone', seen');
          if e.present && e.user {
            pmm := Unref(pmm, e.pfn);
          }
          seen' := seen' + {Leaf(k, i)};
        } else if e.present && e.user {
          ghost var g1, s1 := gone', seen';
          ChildUntouched(s0, k, i, gone, seen, g1, s1);
          gone', seen' := DropEntries(e.pfn, level - 1, s0, Child(k, i), g1, s1);
          ChildLeft(s0, k, i, g1, s1, gone', seen');
          DropTable(s0, pmm, k.root, gone', seen', Child(k, i));
          DoneChild(s0, k, i, gone, seen, g1, s1, gone', seen');
          pmm := Free(pmm, e.pfn);
          gone' := gone' + {Child(k, i)};
        } else {
          DoneAbsent(s0, k, i, gone, seen, gone', seen');
        }
      }
      DoneAll(s0, k, span, gone, seen, gone', seen');
    }

    /** vmm_destroy_address_space. */
    method DestroyAddressSpace(r: Frame)
      requires Inv(S()) && L4(r) in tab
      modifies this
      ensures Torn(old(S()), S(), r) && Inv(S())
    {
      ghost var s0 := S();
      TearingStart(s0, r);
      TearingFacts(s0, pmm, r, {}, {}, L4(r));
      hide Tearing, Done, Inv, Torn;
      ghost var gone, seen := DropEntries(r, 4, s0, L4(r), {}, {});
      RootLeft(s0, r, gone, seen);
      DropTable(s0, pmm, r, gone, seen, L4(r));
      pmm := Free(pmm, r);
      tab := map k | k in tab && k.root != r :: tab[k];
      own := map f | f in own && f < |pmm.used| && pmm.used[f] :: own[f];
      TearingEnd(s0, S(), r, gone, seen);
      TornInv(s0, S(), r);
    }
  }
}
