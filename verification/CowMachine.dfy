/**
 Copy-on-write against eager copying, over whole runs.  The machine takes the
 steps of mm/vmm.c on one shared memory; the eager machine has no frames, no
 reference counts and no permissions: every address space owns its pages, fork
 copies them at once and a store changes the writer's page.
 */
module CowMachine {
  import opened PmmSpec
  import opened PageTables
  import opened VmSteps
  import opened DestroySteps
  import opened SpaceOps
  import opened ForkCounts
  import opened CowSteps

  datatype Op =
    | NewSpace(c: Frame, cur: Frame)
    | Fork(r: Frame, c: Frame)
    | Store(r: Frame, v: VPage, i: nat, w: Word)
    | WriteFault(r: Frame, v: VPage)
    | Demand(r: Frame, v: VPage)
    | NoMemory
    | Destroy(r: Frame)

  /** The steps of the kernel. */
  ghost predicate Step(s: VM, op: Op, s': VM)
  {
    match op
    case NewSpace(c, cur) => Created(s, s', c, cur)
    case Fork(r, c) => Forked(s, s', r, c)
    case Store(r, v, i, w) => Stored(s, s', r, v, i, w)
    case WriteFault(r, v) => Upgraded(s, s', r, v) || exists g :: Split(s, s', r, v, g)
    case Demand(r, v) => exists mid, g, w :: Trees(mid) && Extends(s, mid) && Placed(mid, s', r, v, g, w)
    case NoMemory => Trees(s') && Extends(s, s')
    case Destroy(r) => Torn(s, s', r)
  }

  /** The same operations on private copies. */
  ghost function Eager(a: View, op: Op): View
  {
    match op
    case NewSpace(_, _) => a
    case Fork(r, c) =>
      imap x: Addr | x in a || (x.root == c && Addr(r, x.v) in a) ::
        if x.root == c && Addr(r, x.v) in a then a[Addr(r, x.v)] else a[x]
    case Store(r, v, i, w) => if Addr(r, v) in a && Ix(i) then a[Addr(r, v) := a[Addr(r, v)][i := w]] else a
    case WriteFault(_, _) => a
    case Demand(r, v) => a[Addr(r, v) := ZeroPage()]
    case NoMemory => a
    case Destroy(r) => imap x | x in a && x.root != r :: a[x]
  }

  /** A fork that may leave pages out: the child has copies of some of the parent's
      pages and nothing else; no other space changes. */
  ghost predicate PartFork(a: View, r: Frame, c: Frame, a': View)
  {
    && (forall x: Addr :: x.root != c ==> (x in a' <==> x in a) && (x in a ==> a'[x] == a[x]))
    && (forall v :: Addr(c, v) in a' ==> Addr(r, v) in a && a'[Addr(c, v)] == a[Addr(r, v)])
  }

  /** One step of the eager machine when memory may run out inside a fork. */
  ghost predicate EagerStep(a: View, op: Op, a': View)
  {
    if op.Fork? then PartFork(a, op.r, op.c, a') else a' == Eager(a, op)
  }

  /** What a caller can check before a fork: there is a frame for every table of r up to
      the last leaf table with a user page. */
  ghost predicate Enough(s: VM, op: Op) { op.Fork? ==> FreePageCount(s.pmm) >= Needed(s, op.r) }

  lemma ForkRefines(s: VM, s': VM, r: Frame, c: Frame)
    requires Inv(s) && Forked(s, s', r, c)
    ensures PartFork(Abs(s), r, c, Abs(s'))
    ensures Abs(s') == Eager(Abs(s), Fork(r, c)) <==> Enough(s, Fork(r, c))
  {
    hide Abs, Inv, Forked, Needed, FreePageCount;
    ForkedAbs(s, s', r, c);
    EagerFork(Abs(s), Abs(s'), r, c);
  }

  lemma EagerFork(a: View, a': View, r: Frame, c: Frame)
    requires PartFork(a, r, c, a')
    requires forall v :: Addr(c, v) !in a
    ensures a' == Eager(a, Fork(r, c)) <==> forall v :: Addr(r, v) in a ==> Addr(c, v) in a'
  {
    var e := Eager(a, Fork(r, c));
    forall x: Addr ensures x.root == c ==> x == Addr(c, x.v) {
    }
    if a' == e {
      forall v | Addr(r, v) in a ensures Addr(c, v) in a' { assert Addr(c, v) in e; }
    }
  }

  /** One step keeps the invariant and is one eager step; a fork copies the whole space
      exactly if there are frames for the tables up to its last page. */
  lemma StepRefines(s: VM, op: Op, s': VM)
    requires Inv(s) && Step(s, op, s')
    ensures Inv(s') && EagerStep(Abs(s), op, Abs(s'))
    ensures Abs(s') == Eager(Abs(s), op) <==> Enough(s, op)
  {
    hide Inv, Abs, Trees, Created, CreatedShape, Forked, Torn, Extends, Needed, FreePageCount, PartFork;
    match op {
      case NewSpace(c, cur) =>
        CreatedFacts(s, s', c, cur);
        CreatedInv(s, s', c);
        CreatedAbs(s, s', c);
      case Fork(r, c) =>
        ForkedInv(s, s', r, c);
        ForkRefines(s, s', r, c);
      case Store(r, v, i, w) =>
        StoredInv(s, s', r, v, i, w);
        StoredAbs(s, s', r, v, i, w);
      case WriteFault(r, v) =>
        FaultRefines(s, s', r, v);
      case Demand(r, v) =>
        DemandRefines(s, s', r, v);
      case NoMemory =>
        ExtendsFrames(s, s');
        ExtendsAbs(s, s');
      case Destroy(r) =>
        TornInv(s, s', r);
        TornAbs(s, s', r);
    }
  }

  /** A handled write fault, or one that found no memory, leaves every view as it was. */
  lemma FaultView(s: VM, s': VM, r: Frame, v: VPage)
    requires Inv(s) && (Step(s, WriteFault(r, v), s') || s' == s)
    requires L4(r) in s.tab
    ensures Inv(s') && Abs(s') == Abs(s) && L4(r) in s'.tab
  {
    if s' != s {
      FaultRefines(s, s', r, v);
      if Upgraded(s, s', r, v) {
      } else {
        var g :| Split(s, s', r, v, g);
      }
    }
  }

  lemma FaultRefines(s: VM, s': VM, r: Frame, v: VPage)
    requires Inv(s) && (Upgraded(s, s', r, v) || exists g :: Split(s, s', r, v, g))
    ensures Inv(s') && Abs(s') == Abs(s)
  {
    if Upgraded(s, s', r, v) {
      UpgradedInv(s, s', r, v);
      UpgradedAbs(s, s', r, v);
    } else {
      var g :| Split(s, s', r, v, g);
      SplitInv(s, s', r, v, g);
      SplitFacts(s, s', r, v, g);
      SplitAbs(s, s', r, v, Pte(s, r, v).pfn, g);
    }
  }

  lemma DemandRefines(s: VM, s': VM, r: Frame, v: VPage)
    requires Inv(s) && exists mid, g, w :: Trees(mid) && Extends(s, mid) && Placed(mid, s', r, v, g, w)
    ensures Inv(s') && Abs(s') == Abs(s)[Addr(r, v) := ZeroPage()]
  {
    var mid, g, w :| Trees(mid) && Extends(s, mid) && Placed(mid, s', r, v, g, w);
    ExtendsAbs(s, mid);
    PlacedInv(mid, s', r, v, g, w);
    PlacedFacts(mid, s', r, v, g, w);
    ExtendsFrames(s, mid);
    PlacedAbs(mid, s', r, v, g, w);
  }

  lemma CreatedAbs(s: VM, s': VM, c: Frame)
    requires Inv(s) && CreatedShape(s, s', c)
    ensures Abs(s') == Abs(s)
  {
    forall f | f in s.own && s.own[f].Pg? ensures FrameAt(s'.mem, f) == FrameAt(s.mem, f) {
    }
    SameView(s, s');
  }

  // ---- Runs ------------------------------------------------------------------------

  ghost predicate Run(ss: seq<VM>, ops: seq<Op>)
  {
    && |ss| == |ops| + 1
    && forall i :: 0 <= i < |ops| ==> Step(ss[i], ops[i], ss[i + 1])
  }

  ghost function EagerRun(a: View, ops: seq<Op>): View
  {
    if ops == [] then a else Eager(EagerRun(a, ops[..|ops| - 1]), ops[|ops| - 1])
  }

  /** A machine with no address spaces yet. */
  ghost predicate Boot(s: VM)
  {
    |s.mem| == |s.pmm.used| && PmmOk(s.pmm) && s.tab == map[] && s.own == map[]
  }

  lemma BootInv(s: VM)
    requires Boot(s)
    ensures Inv(s) && Abs(s) == imap[]
  {
    forall k: Key, x | !k.L1? && 0 <= x < Span(k) ensures InnerOk(s, k, x) {
    }
    forall k: Key, x | k.L1? && Ix(x) ensures LeafOk(s, k, x) {
    }
    assert forall a :: !Has(s, a);
  }

  /** Over every run the invariant holds, each step is a step of the eager machine, and
      if there were frames for the tables at each fork, copy-on-write is eager copying:
      every address space sees exactly the bytes it would have if each fork had copied
      all its pages. */
  lemma {:induction false} RunRefines(ss: seq<VM>, ops: seq<Op>)
    requires Run(ss, ops) && Inv(ss[0])
    ensures forall i :: 0 <= i <= |ops| ==> Inv(ss[i])
    ensures forall i :: 0 <= i < |ops| ==> EagerStep(Abs(ss[i]), ops[i], Abs(ss[i + 1]))
    ensures (forall i :: 0 <= i < |ops| ==> Enough(ss[i], ops[i])) ==> Abs(ss[|ops|]) == EagerRun(Abs(ss[0]), ops)
    decreases |ops|
  {
    hide Inv, Abs, Eager, EagerStep, Step, Enough;
    if ops != [] {
      var n := |ops| - 1;
      RunRefines(ss[..n + 1], ops[..n]);
      assert Step(ss[n], ops[n], ss[n + 1]);
      StepRefines(ss[n], ops[n], ss[n + 1]);
    }
  }

  /** A writable user entry is the only one on its frame; a counted frame has one
      reference per entry on it; and a frame that a table or an entry of a live
      space leads to is not free. */
  ghost predicate Safe(s: VM, r: Frame, v: VPage, r': Frame, v': VPage)
    requires InUserHalf(v)
  {
    && (L4(r) in s.tab ==> Translate(s.mem, r, v) == Pte(s, r, v))
    && (UserPage(Pte(s, r, v)) ==> SafePage(s, r, v, Pte(s, r, v).pfn))
    && (UserPage(Pte(s, r, v)) && UserPage(Pte(s, r', v')) && Pte(s, r', v').pfn == Pte(s, r, v).pfn ==>
          v' == v && (Pte(s, r, v).writable ==> r' == r))
  }

  ghost predicate SafePage(s: VM, r: Frame, v: VPage, f: Frame)
  {
    && L4(r) in s.tab
    && 0 < f < |s.mem| == |s.pmm.used| && s.pmm.used[f] && (forall k :: k in s.tab ==> s.tab[k] != f)
    && (f < MAX_PAGES ==> f < |s.pmm.rc| && s.pmm.rc[f] == |Mappers(s, v, f)|)
    && (forall q :: q in Mappers(s, v, f) <==> Maps(s, q, v, f))
  }

  lemma PageIsSafe(s: VM, r: Frame, v: VPage)
    requires Inv(s) && InUserHalf(v) && UserPage(Pte(s, r, v))
    ensures SafePage(s, r, v, Pte(s, r, v).pfn)
  {
    var f := Pte(s, r, v).pfn;
    MappedHasRef(s, r, v, f);
    assert FrameOk(s, f);
    assert Linked(s, TableOf(r, v));
    forall q ensures q in Mappers(s, v, f) <==> Maps(s, q, v, f) {
      MappersIff(s, v, f, q);
    }
  }

  lemma StateIsSafe(s: VM, r: Frame, v: VPage, r': Frame, v': VPage)
    requires Inv(s) && InUserHalf(v) && InUserHalf(v')
    ensures Safe(s, r, v, r', v')
  {
    if L4(r) in s.tab { TranslateIsPte(s, r, v); }
    if UserPage(Pte(s, r, v)) {
      PageIsSafe(s, r, v);
      MappedHasRef(s, r, v, Pte(s, r, v).pfn);
      if UserPage(Pte(s, r', v')) && Pte(s, r', v').pfn == Pte(s, r, v).pfn {
        MappedHasRef(s, r', v', Pte(s, r, v).pfn);
        if Pte(s, r, v).writable { WritableIsSole(s, r, v, r', v'); }
      }
    }
  }

  /** Safety of every state of every run from boot. */
  lemma RunSafe(ss: seq<VM>, ops: seq<Op>, n: nat)
    requires Run(ss, ops) && Boot(ss[0]) && n <= |ops|
    ensures forall r, v, r', v' :: InUserHalf(v) && InUserHalf(v') ==> Safe(ss[n], r, v, r', v')
    ensures forall k :: k in ss[n].tab ==> ss[n].tab[k] < |ss[n].pmm.used| && ss[n].pmm.used[ss[n].tab[k]]
  {
    BootInv(ss[0]);
    RunRefines(ss, ops);
    assert Inv(ss[n]);
    TablesUsed(ss[n]);
    hide Inv, Safe, Boot, Abs, EagerRun;
    forall r, v, r', v' | InUserHalf(v) && InUserHalf(v') ensures Safe(ss[n], r, v, r', v') {
      StateIsSafe(ss[n], r, v, r', v');
    }
  }

  lemma TablesUsed(s: VM)
    requires Inv(s)
    ensures forall k :: k in s.tab ==> s.tab[k] < |s.pmm.used| && s.pmm.used[s.tab[k]]
  {
  }
}
