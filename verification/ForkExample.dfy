/**
 A run of the kernel in which vmm_cow_clone leaves a page out.
 */
module ForkExample {
  import opened PmmSpec
  import opened PageTables
  import opened VmSteps
  import opened CloneSteps
  import opened DestroySteps
  import opened SpaceOps
  import opened ForkCounts
  import opened CowSteps
  import opened CowMachine
  import opened Vmm

  /** Eight frames, of which frame 0 is never free. */
  function SmallPmm(): Pmm { Pmm(Bitmap(8), seq(MAX_PAGES, _ => 0), 1, 8) }

  function Bitmap(n: nat): seq<bool> { seq(n, i => i == 0) }

  lemma {:induction false} CountBitmap(n: nat)
    requires n > 0
    ensures CountFree(Bitmap(n)) == n - 1
  {
    if n > 1 {
      assert Bitmap(n)[..n - 1] == Bitmap(n - 1);
      CountBitmap(n - 1);
    } else {
      assert Bitmap(n)[..0] == [];
    }
  }

  lemma SmallBoot(s: VM)
    requires s == VM(seq(8, _ => ZeroPage()), SmallPmm(), map[], map[])
    ensures Inv(s) && s.tab == map[] && FreePageCount(s.pmm) == 7 && UsesZero(s)
  {
    CountBitmap(8);
    BootInv(s);
  }

  ghost predicate UsesZero(s: VM) { 0 < |s.pmm.used| && s.pmm.used[0] }

  lemma InvUsesZero(s: VM)
    requires Inv(s)
    ensures UsesZero(s)
  {
  }

  /** r is the only space. */
  ghost predicate Alone(s: VM, r: Frame) { forall k: Key :: k in s.tab && k.L4? ==> k.root == r }

  lemma FirstSpace(s: VM, s': VM, c: Frame, v: VPage)
    requires Inv(s) && s.tab == map[] && Created(s, s', c, 0)
    ensures Inv(s') && Alone(s', c) && L4(c) in s'.tab && !UserPage(Pte(s', c, v)) && MissingTables(s'.tab, c, v) == 3
  {
    CreatedFacts(s, s', c, 0);
    CreatedInv(s, s', c);
  }

  lemma DemandAlone(s: VM, s': VM, r: Frame, v: VPage)
    requires Inv(s) && Alone(s, r) && L4(r) in s.tab && Step(s, Demand(r, v), s') && Inv(s')
    ensures Alone(s', r) && L4(r) in s'.tab
  {
    var mid, g, w :| Trees(mid) && Extends(s, mid) && Placed(mid, s', r, v, g, w);
    PlacedFacts(mid, s', r, v, g, w);
  }

  /** With one space every page has at most one reference. */
  lemma AloneRoom(s: VM, r: Frame)
    requires Inv(s) && Alone(s, r)
    ensures RefRoom(s, r)
  {
    forall v | InUserHalf(v) && UserPage(Pte(s, r, v)) ensures RoomFor(s.pmm, Pte(s, r, v).pfn) {
      var f := Pte(s, r, v).pfn;
      MappedHasRef(s, r, v, f);
      forall q | q in Mappers(s, v, f) ensures q == r {
        MappersIff(s, v, f, q);
        assert Linked(s, TableOf(q, v));
      }
      MappersIff(s, v, f, r);
      assert Mappers(s, v, f) == {r};
    }
  }

  lemma ChildLacks(s: VM, s': VM, r: Frame, c: Frame, v: VPage)
    requires Inv(s) && Forked(s, s', r, c) && FreePageCount(s.pmm) < 4 && InUserHalf(v) && UserPage(Pte(s, r, v))
    ensures !Pte(s', c, v).present && Abs(s') != Eager(Abs(s), Fork(r, c))
  {
    hide Inv, Forked, FreePageCount, Pte;
    FewFrames(s, s', r, c, v);
    assert Has(s, Addr(r, v)) && !Has(s', Addr(c, v));
    assert Addr(r, v) in Abs(s) && Addr(c, v) !in Abs(s');
    assert Addr(c, v) in Eager(Abs(s), Fork(r, c));
  }

  /** Of seven free frames the parent takes five for one page and its tables; the other
      two are not enough to copy those, and the child goes without the page. */
  method ForkLosesPage() returns (m: MemoryManager, parent: Frame, child: Frame, ghost before: VM)
    ensures fresh(m) && Inv(before) && Inv(m.S()) && Step(before, Fork(parent, child), m.S())
    ensures FreePageCount(before.pmm) == 2 && UserPage(Pte(before, parent, VPage(0, 0, 0, 0)))
    ensures !Pte(m.S(), child, VPage(0, 0, 0, 0)).present && Abs(m.S()) != Eager(Abs(before), Fork(parent, child))
  {
    hide Inv, Trees, Abs, Eager, Forked, FreePageCount, RefRoom, MissingTables, Created, Pte;
    var v := VPage(0, 0, 0, 0);
    m := new MemoryManager(seq(8, _ => ZeroPage()), SmallPmm());
    ghost var s0 := m.S();
    SmallBoot(s0);
    InvTrees(s0);
    parent := m.CloneKernelSpace(0);
    ghost var s1 := m.S();
    FirstSpace(s0, s1, parent, v);
    ghost var ok := m.MapUserPage(parent, v, true);
    before := m.S();
    DemandAlone(s1, before, parent, v);
    AloneRoom(before, parent);
    InvUsesZero(before);
    child := m.CowClone(0, parent);
    ChildLacks(before, m.S(), parent, child, v);
  }
}
