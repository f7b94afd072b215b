/**
 What holds at every moment inside vmm_cow_clone, and why each of its
 elementary changes keeps it.  s0 is the state the clone started from, r the
 root being cloned and c the root of the clone.
 */
module CloneSteps {
  import opened PmmSpec
  import opened PageTables
  import opened VmSteps

  /** A page-table entry as vmm_clone_pt leaves it, in the parent and in the
      child: a user page loses its write permission, anything else is kept. */
  function Shared(e: Word): Word
  {
    if UserPage(e) then e.(writable := false) else e
  }

  /** Parent and child entry of one leaf slot, before and after it was copied:
      e0 is the parent's entry at the start, e its entry now, d the child's. */
  predicate CellRel(e0: Word, e: Word, d: Word)
  {
    if d.present then e0.present && e == d == Shared(e0) else e == e0 && d == ZERO
  }

  ghost predicate CellOk(s0: VM, s: VM, k: Key, x: nat, c: Frame)
  {
    CellRel(At(s0, k, x), At(s, k, x), At(s, In(k, c), x))
  }

  /** Tables and owners: only tables of the clone were added, at keys the parent
      has, in frames that were free. */
  ghost predicate CloneTabs(s0: VM, tab: map<Key, Frame>, own: map<Frame, Owner>, used: seq<bool>, r: Frame, c: Frame)
  {
    (
      && |used| == |s0.pmm.used|
      && L4(r) in s0.tab && L4(c) !in s0.tab && L4(c) in tab && tab[L4(c)] == c
      && (forall k :: k in s0.tab ==> k in tab && tab[k] == s0.tab[k] && k.root != c)
      && (forall k :: k in tab && k !in s0.tab ==> k.root == c)
      && (forall k {:trigger In(k, r)} :: k in tab && k !in s0.tab ==> In(k, r) in s0.tab)
      && (forall f :: f in s0.own ==> f in own && own[f] == s0.own[f])
      && (forall f :: f in own && f !in s0.own ==> own[f].Tab? && f < |used| && !s0.pmm.used[f])
      && (forall f :: 0 <= f < |used| ==> (used[f] <==> s0.pmm.used[f] || f in own))
    ) == true
  }

  ghost predicate ParentLeafTable(s0: VM, f: Frame, r: Frame)
  {
    f in s0.own && s0.own[f].Tab? && s0.own[f].key.L1? && s0.own[f].key.root == r
  }

  /** Memory: of the frames that were in use only the parent's leaf tables
      changed, and those cell by cell. */
  ghost predicate CloneFrames(s0: VM, mem: Ram, r: Frame)
  {
    && |mem| == |s0.mem| == |s0.pmm.used|
    && (forall f :: 0 <= f < |mem| && s0.pmm.used[f] && !ParentLeafTable(s0, f, r) ==>
          mem[f] == s0.mem[f])
  }

  ghost predicate CloneCells(s0: VM, s: VM, r: Frame, c: Frame)
  {
    forall k: Key, x {:trigger CellOk(s0, s, k, x, c)} :: k.L1? && k.root == r && Ix(x) ==>
      CellOk(s0, s, k, x, c)
  }

  /** References: one more on every frame the clone maps, one on each new table. */
  ghost predicate CloneRef(s0: VM, s: VM, c: Frame, f: Frame)
    requires f < |s.pmm.rc| == |s0.pmm.rc|
  {
    s.pmm.rc[f] ==
      if f in s0.own && s0.own[f].Pg? then
        s0.pmm.rc[f] + (if Maps(s, c, s0.own[f].v, f) then 1 else 0)
      else if f in s.own && f !in s0.own then 1
      else s0.pmm.rc[f]
  }

  ghost predicate CloneRefs(s0: VM, s: VM, c: Frame)
  {
    && |s.pmm.rc| == |s0.pmm.rc| == MAX_PAGES
    && (forall f {:trigger CloneRef(s0, s, c, f)} :: 0 <= f < MAX_PAGES ==> CloneRef(s0, s, c, f))
  }

  ghost predicate CloneInv(s0: VM, s: VM, r: Frame, c: Frame)
  {
    (
      && Trees(s0) && Good(s) && s.pmm.usablePages == s0.pmm.usablePages
      && CloneTabs(s0, s.tab, s.own, s.pmm.used, r, c)
      && CloneFrames(s0, s.mem, r)
      && CloneCells(s0, s, r, c)
      && CloneRefs(s0, s, c)
    ) == true
  }

  /** 16-bit counts leave room for one more reference on every page of r. */
  ghost predicate RefRoom(s0: VM, r: Frame)
  {
    forall v {:trigger Pte(s0, r, v)} :: InUserHalf(v) && UserPage(Pte(s0, r, v)) ==>
      RoomFor(s0.pmm, Pte(s0, r, v).pfn)
  }

  predicate RoomFor(p: Pmm, f: Frame) { f < MAX_PAGES && f < |p.rc| ==> p.rc[f] < REF_MODULUS - 1 }

  /** Exactly then taking a reference adds one instead of wrapping to zero. */
  lemma RefIsExact(p: Pmm, f: Frame)
    requires PmmOk(p) && f < MAX_PAGES
    ensures RoomFor(p, f) <==> Ref(p, f).rc[f] == p.rc[f] + 1
    ensures !RoomFor(p, f) ==> Ref(p, f).rc[f] == 0
  {
  }

  // ---- A table of the clone is allocated -----------------------------------

  lemma AddTable(s0: VM, s: VM, r: Frame, c: Frame, k: Key, f: Frame)
    requires CloneInv(s0, s, r, c)
    requires k !in s.tab && k.root == c && !k.L4? && KeyOk(k) && In(k, r) in s0.tab
    requires f == Alloc(s.pmm).1 && f != 0
    ensures f < |s.mem| && f !in s.own
    ensures CloneInv(s0, WithTable(Taken(s, f), k, f), r, c)
    ensures forall j, x {:trigger At(WithTable(Taken(s, f), k, f), j, x)} :: At(WithTable(Taken(s, f), k, f), j, x) == At(s, j, x)
  {
    hide CloneInv, Good, Trees, PmmOk, CloneCells, CloneRefs, CloneFrames, CloneTabs;
    CloneParts(s0, s, r, c);
    AddTableGood(s, k, f);
    var s' := WithTable(Taken(s, f), k, f);
    NewFrame(s0, s, r, c, f);
    AddTableTabs(s0, s.tab, s.own, s.pmm.used, r, c, k, f);
    AddTableFrames(s0, s.mem, r, f);
    SameCells(s0, s, s', r, c);
    AddTableRefs(s0, s, s', c, f);
    CloneWhole(s0, s', r, c);
  }

  lemma CloneParts(s0: VM, s: VM, r: Frame, c: Frame)
    requires CloneInv(s0, s, r, c)
    ensures Trees(s0) && Good(s) && PmmOk(s.pmm) && s.pmm.usablePages == s0.pmm.usablePages
    ensures CloneTabs(s0, s.tab, s.own, s.pmm.used, r, c) && CloneFrames(s0, s.mem, r)
    ensures CloneCells(s0, s, r, c) && CloneRefs(s0, s, c)
  {
  }

  lemma CloneWhole(s0: VM, s: VM, r: Frame, c: Frame)
    requires Trees(s0) && Good(s) && s.pmm.usablePages == s0.pmm.usablePages
    requires CloneTabs(s0, s.tab, s.own, s.pmm.used, r, c) && CloneFrames(s0, s.mem, r)
    requires CloneCells(s0, s, r, c) && CloneRefs(s0, s, c)
    ensures CloneInv(s0, s, r, c)
  {
  }

  /** A frame that is free now was free at the start. */
  lemma NewFrame(s0: VM, s: VM, r: Frame, c: Frame, f: Frame)
    requires CloneInv(s0, s, r, c) && f < |s.mem| && !s.pmm.used[f]
    ensures f !in s0.own && f < |s0.pmm.used| && !s0.pmm.used[f] && |s.pmm.used| == |s.mem|
  {
  }

  lemma AddTableGood(s: VM, k: Key, f: Frame)
    requires Good(s) && k !in s.tab && !k.L4? && KeyOk(k)
    requires f == Alloc(s.pmm).1 && f != 0
    ensures f < |s.mem| && f !in s.own && !s.pmm.used[f]
    ensures Good(WithTable(Taken(s, f), k, f))
    ensures forall j, x {:trigger At(WithTable(Taken(s, f), k, f), j, x)} :: At(WithTable(Taken(s, f), k, f), j, x) == At(s, j, x)
  {
    AllocOk(s.pmm);
    TakenOk(s, f);
    WithTableOk(Taken(s, f), k, f);
  }

  lemma AddTableFrames(s0: VM, mem: Ram, r: Frame, f: Frame)
    requires CloneFrames(s0, mem, r) && f < |mem| && !s0.pmm.used[f]
    ensures CloneFrames(s0, mem[f := ZeroPage()], r)
  {
  }

  lemma AddTableTabs(s0: VM, tab: map<Key, Frame>, own: map<Frame, Owner>, used: seq<bool>,
                     r: Frame, c: Frame, k: Key, f: Frame)
    requires CloneTabs(s0, tab, own, used, r, c)
    requires k !in tab && k.root == c && !k.L4? && In(k, r) in s0.tab && f < |used| && f !in own && !used[f]
    ensures CloneTabs(s0, tab[k := f], own[f := Tab(k)], used[f := true], r, c)
  {
  }

  lemma SameCells(s0: VM, s: VM, s': VM, r: Frame, c: Frame)
    requires CloneCells(s0, s, r, c)
    requires forall j: Key, x {:trigger At(s', j, x)} :: j.L1? ==> At(s', j, x) == At(s, j, x)
    ensures CloneCells(s0, s', r, c)
  {
    forall k: Key, x | k.L1? && k.root == r && Ix(x) ensures CellOk(s0, s', k, x, c) {
      assert CellOk(s0, s, k, x, c);
    }
  }

  lemma AddTableRefs(s0: VM, s: VM, s': VM, c: Frame, f: Frame)
    requires CloneRefs(s0, s, c) && f !in s0.own
    requires s'.own.Keys == s.own.Keys + {f}
    requires s'.pmm.rc == if f < MAX_PAGES then s.pmm.rc[f := 1] else s.pmm.rc
    requires forall j: Key, x {:trigger At(s', j, x)} :: j.L1? ==> At(s', j, x) == At(s, j, x)
    ensures CloneRefs(s0, s', c)
  {
    forall g | 0 <= g < MAX_PAGES ensures CloneRef(s0, s', c, g) {
      assert CloneRef(s0, s, c, g);
    }
  }

  // ---- A finished table of the clone is hung into its parent -----------------

  lemma HangTable(s0: VM, s: VM, r: Frame, c: Frame, n: Key, x: nat)
    requires CloneInv(s0, s, r, c)
    requires n in s.tab && n.root == c && !n.L1? && 0 <= x < Span(n) && Child(n, x) in s.tab
    ensures CloneInv(s0, WithEntry(s, n, x, TableEntry(s.tab[Child(n, x)])), r, c)
  {
    hide CloneInv, CloneCells, CloneRefs, CloneTabs, CloneFrames, Trees;
    CloneParts(s0, s, r, c);
    GoodParts(s);
    hide Good, EntriesOk, PmmOk;
    var e := TableEntry(s.tab[Child(n, x)]);
    HungOk(s, n, x);
    AtWithEntry(s, n, x, e);
    var s' := WithEntry(s, n, x, e);
    SameCells(s0, s, s', r, c);
    SameRefs(s0, s, s', c);
    OldOwners(s0);
    NewPlace(s0, s.tab, s.own, s.pmm.used, |s.mem|, r, c, n);
    OneFrame(s0, s.mem, s'.mem, r, s.tab[n]);
    CloneWhole(s0, s', r, c);
  }

  lemma OldOwners(s: VM)
    requires Trees(s)
    ensures OwnersOk(s.tab, s.own, s.pmm.used)
  {
  }

  /** A new table was written. */
  lemma OneFrame(s0: VM, mem: Ram, mem': Ram, r: Frame, n: Frame)
    requires CloneFrames(s0, mem, r) && |mem'| == |mem| && (n < |s0.pmm.used| ==> !s0.pmm.used[n])
    requires forall f :: 0 <= f < |mem| && f != n ==> mem'[f] == mem[f]
    ensures CloneFrames(s0, mem', r)
  {
  }

  lemma SameRefs(s0: VM, s: VM, s': VM, c: Frame)
    requires CloneRefs(s0, s, c)
    requires s'.own == s.own && s'.pmm.rc == s.pmm.rc
    requires forall j: Key, x {:trigger At(s', j, x)} :: j.L1? ==> At(s', j, x) == At(s, j, x)
    ensures CloneRefs(s0, s', c)
  {
    forall g | 0 <= g < MAX_PAGES ensures CloneRef(s0, s', c, g) {
      assert CloneRef(s0, s, c, g);
    }
  }

  // ---- One leaf entry is copied -----------------------------------------------

  /** The state after vmm_clone_pt handled the present entry x of the table at k. */
  ghost function CellDone(s: VM, k: Key, x: nat, c: Frame): VM
    requires Good(s) && k in s.tab && In(k, c) in s.tab && k.L1? && Ix(x)
  {
    var e := At(s, k, x);
    var s1 := WithEntry(WithEntry(s, k, x, Shared(e)), In(k, c), x, Shared(e));
    if UserPage(e) then s1.(pmm := Ref(s.pmm, e.pfn)) else s1
  }

  lemma CopyCell(s0: VM, s: VM, r: Frame, c: Frame, k: Key, x: nat)
    requires CloneInv(s0, s, r, c) && RefRoom(s0, r)
    requires k in s0.tab && k.L1? && k.root == r && In(k, c) in s.tab && Ix(x)
    requires At(s, k, x).present && !At(s, In(k, c), x).present
    ensures CloneInv(s0, CellDone(s, k, x, c), r, c)
  {
    CellDoneGood(s, k, x, c);
    CellDoneAt(s, k, x, c);
    var s' := CellDone(s, k, x, c);
    assert s.own[s.tab[k]] == Tab(k) && s.own[s.tab[In(k, c)]] == Tab(In(k, c));
    CellDoneFrames(s0, s, r, c, k, x);
    CellDoneCells(s0, s, s', r, c, k, x);
    assert LeafOk(s, k, x);
    if UserPage(At(s, k, x)) { CellRoom(s0, s, r, c, k, x); }
    CellDoneRefs(s0, s, s', r, c, k, x);
  }

  lemma CellRoom(s0: VM, s: VM, r: Frame, c: Frame, k: Key, x: nat)
    requires CloneCells(s0, s, r, c) && RefRoom(s0, r) && KeyOk(k)
    requires k.L1? && k.root == r && Ix(x) && UserPage(At(s, k, x))
    ensures RoomFor(s0.pmm, At(s, k, x).pfn)
  {
    assert CellOk(s0, s, k, x, c);
    assert TableOf(r, Leaf(k, x)) == k;
    assert Pte(s0, r, Leaf(k, x)) == At(s0, k, x);
  }

  lemma CellDoneGood(s: VM, k: Key, x: nat, c: Frame)
    requires Good(s) && k in s.tab && In(k, c) in s.tab && k.L1? && Ix(x)
    ensures Good(CellDone(s, k, x, c))
  {
    var e := At(s, k, x);
    assert LeafOk(s, k, x);
    LeafWriteOk(s, k, x, Shared(e));
    var s1 := WithEntry(s, k, x, Shared(e));
    LeafWriteOk(s1, In(k, c), x, Shared(e));
    var s2 := WithEntry(s1, In(k, c), x, Shared(e));
    if UserPage(e) {
      RefOk(s.pmm, e.pfn);
      SameEntriesOk(s2, s2.(pmm := Ref(s.pmm, e.pfn)));
    }
  }

  lemma CellDoneAt(s: VM, k: Key, x: nat, c: Frame)
    requires Good(s) && k in s.tab && In(k, c) in s.tab && k.L1? && Ix(x)
    ensures forall j, y {:trigger At(CellDone(s, k, x, c), j, y)} :: At(CellDone(s, k, x, c), j, y) ==
                           if (j == k || j == In(k, c)) && y == x then Shared(At(s, k, x)) else At(s, j, y)
  {
    var e := Shared(At(s, k, x));
    AtWithEntry(s, k, x, e);
    AtWithEntry(WithEntry(s, k, x, e), In(k, c), x, e);
  }

  lemma CellDoneFrames(s0: VM, s: VM, r: Frame, c: Frame, k: Key, x: nat)
    requires Good(s0) && Good(s) && CloneFrames(s0, s.mem, r)
    requires CloneTabs(s0, s.tab, s.own, s.pmm.used, r, c)
    requires k in s0.tab && k.L1? && k.root == r && In(k, c) in s.tab && Ix(x)
    ensures CloneFrames(s0, CellDone(s, k, x, c).mem, r)
  {
    hide CellDone, Good, EntriesOk, PmmOk;
    GoodParts(s0);
    GoodParts(s);
    CellDoneMem(s, k, x, c);
    NewPlace(s0, s.tab, s.own, s.pmm.used, |s.mem|, r, c, In(k, c));
    assert s0.own[s0.tab[k]] == Tab(k) && s.tab[k] == s0.tab[k];
    TwoFrames(s0, s.mem, CellDone(s, k, x, c).mem, r, s.tab[k], s.tab[In(k, c)]);
  }

  lemma CellDoneMem(s: VM, k: Key, x: nat, c: Frame)
    requires Good(s) && k in s.tab && In(k, c) in s.tab && k.L1? && Ix(x)
    ensures var mem := CellDone(s, k, x, c).mem;
            |mem| == |s.mem| && forall f :: 0 <= f < |mem| && f != s.tab[k] && f != s.tab[In(k, c)] ==> mem[f] == s.mem[f]
  {
  }

  /** A leaf table of the parent and a new table were written. */
  lemma TwoFrames(s0: VM, mem: Ram, mem': Ram, r: Frame, t: Frame, n: Frame)
    requires CloneFrames(s0, mem, r) && |mem'| == |mem| && ParentLeafTable(s0, t, r) && (n < |s0.pmm.used| ==> !s0.pmm.used[n])
    requires forall f :: 0 <= f < |mem| && f != t && f != n ==> mem'[f] == mem[f]
    ensures CloneFrames(s0, mem', r)
  {
  }

  /** The frame of a new table was free. */
  lemma NewPlace(s0: VM, tab: map<Key, Frame>, own: map<Frame, Owner>, used: seq<bool>, n: nat, r: Frame, c: Frame, j: Key)
    requires CloneTabs(s0, tab, own, used, r, c) && PlacesOk(tab, own, n) && OwnersOk(s0.tab, s0.own, s0.pmm.used)
    requires j in tab && j.root == c
    ensures tab[j] < |s0.pmm.used| ==> !s0.pmm.used[tab[j]]
  {
    assert j !in s0.tab;
    assert own[tab[j]] == Tab(j);
  }

  lemma CellDoneCells(s0: VM, s: VM, s': VM, r: Frame, c: Frame, k: Key, x: nat)
    requires CloneCells(s0, s, r, c) && c != r
    requires k.L1? && k.root == r && Ix(x)
    requires At(s, k, x).present && !At(s, In(k, c), x).present
    requires forall j, y {:trigger At(s', j, y)} :: At(s', j, y) ==
                            if (j == k || j == In(k, c)) && y == x then Shared(At(s, k, x)) else At(s, j, y)
    ensures CloneCells(s0, s', r, c)
  {
    assert CellOk(s0, s, k, x, c);
    forall j: Key, y | j.L1? && j.root == r && Ix(y) ensures CellOk(s0, s', j, y, c) {
      assert CellOk(s0, s, j, y, c);
    }
  }

  lemma CellDoneRefs(s0: VM, s: VM, s': VM, r: Frame, c: Frame, k: Key, x: nat)
    requires CloneRefs(s0, s, c) && c != r
    requires UserPage(At(s, k, x)) ==> RoomFor(s0.pmm, At(s, k, x).pfn)
    requires k.L1? && k.root == r && Ix(x)
    requires !At(s, In(k, c), x).present
    requires s'.own == s.own
    requires s'.pmm.rc == if UserPage(At(s, k, x)) then Ref(s.pmm, At(s, k, x).pfn).rc else s.pmm.rc
    requires forall j, y {:trigger At(s', j, y)} :: At(s', j, y) ==
                            if (j == k || j == In(k, c)) && y == x then Shared(At(s, k, x)) else At(s, j, y)
    requires UserPage(At(s, k, x)) ==>
               At(s, k, x).pfn in s0.own && s0.own[At(s, k, x).pfn] == Pg(Leaf(k, x))
    ensures CloneRefs(s0, s', c)
  {
    forall g | 0 <= g < MAX_PAGES ensures CloneRef(s0, s', c, g) {
      assert CloneRef(s0, s, c, g);
      if g in s0.own && s0.own[g].Pg? {
        var v := s0.own[g].v;
        if v == Leaf(k, x) {
          assert TableOf(c, v) == In(k, c);
        } else {
          assert Pte(s', c, v) == Pte(s, c, v);
        }
      }
    }
  }

  // ---- The part of the clone under one table -----------------------------------

  /** The entry of n on the way down to j. */
  function Branch(n: Key, j: Key): nat
    requires StrictlyBelow(n, j)
  {
    match n
    case L4(_) => j.a
    case L3(_, _) => j.b
    case L2(_, _, _) => j.c
  }

  lemma BelowChild(n: Key, x: nat, j: Key)
    requires !n.L1?
    ensures Below(Child(n, x), j) == (StrictlyBelow(n, j) && Branch(n, j) == x)
  {
  }

  /** No tables yet under n, and no entries in it. */
  ghost predicate Blank(s: VM, n: Key)
  {
    && (forall j :: j in s.tab ==> !StrictlyBelow(n, j))
    && (forall x :: 0 <= x < Span(n) ==> At(s, n, x) == ZERO)
  }

  /** Tables under n sit under its first i entries and hang in their parents. */
  ghost predicate HangsBelow(s: VM, n: Key, i: nat)
  {
    (
      && (forall j {:trigger Branch(n, j)} :: j in s.tab && StrictlyBelow(n, j) ==> Branch(n, j) < i)
      && (forall j {:trigger Linked(s, j)} :: j in s.tab && StrictlyBelow(n, j) ==> Linked(s, j))
      && (forall x :: i <= x < Span(n) ==> At(s, n, x) == ZERO)
    ) == true
  }

  /** Every leaf table at or under n is a full copy. */
  ghost predicate CopiedBelow(s0: VM, s: VM, n: Key, r: Frame)
  {
    forall j: Key, x {:trigger At(s, j, x)} ::
      j in s.tab && j.L1? && Below(n, j) && At(s0, In(j, r), x).present ==> At(s, j, x).present
  }

  /** Unless memory ran out, the first i entries of k have their whole subtree. */
  ghost predicate CompleteBelow(s0: VM, s: VM, k: Key, c: Frame, i: nat)
  {
    FreePageCount(s.pmm) > 0 ==>
      forall j :: j in s0.tab && StrictlyBelow(k, j) && Branch(k, j) < i ==> In(j, c) in s.tab
  }

  /** Indices on the way to a table, -1 where the way has ended. */
  function IxA(k: Key): int { if k.L4? then -1 else k.a }
  function IxB(k: Key): int { if k.L4? || k.L3? then -1 else k.b }
  function IxC(k: Key): int { if k.L1? then k.c else -1 }

  /** The clone comes to the table at j before the one at k: a table before the tables
      under it, and these in the order of the entries. */
  predicate Before(j: Key, k: Key)
  {
    IxA(j) < IxA(k) || (IxA(j) == IxA(k) && (IxB(j) < IxB(k) || (IxB(j) == IxB(k) && IxC(j) < IxC(k))))
  }

  lemma BranchOrder(k: Key, j: Key, j': Key)
    requires StrictlyBelow(k, j) && StrictlyBelow(k, j') && Before(j, j')
    ensures Branch(k, j) <= Branch(k, j')
  {
  }

  /** Of the tables under the first i entries of k, the clone has those it came to first. */
  ghost predicate PrefixBelow(s0: VM, s: VM, k: Key, c: Frame, i: nat)
  {
    (forall j, j' {:trigger Before(j, j')} ::
      (&& j in s0.tab && j' in s0.tab && StrictlyBelow(k, j) && StrictlyBelow(k, j')
       && Branch(k, j') < i && Before(j, j') && In(j', c) in s.tab) ==> In(j, c) in s.tab) == true
  }

  /** From s to s' the clone only grew under n. */
  ghost predicate OnlyBelow(s: VM, s': VM, n: Key)
  {
    (
      && FreePageCount(s'.pmm) <= FreePageCount(s.pmm)
      && (forall j :: j in s.tab ==> j in s'.tab && s'.tab[j] == s.tab[j])
      && (forall j :: j in s'.tab && j !in s.tab ==> StrictlyBelow(n, j))
      && (forall j: Key, x {:trigger At(s', j, x)} :: j.root == n.root && !Below(n, j) ==> At(s', j, x) == At(s, j, x))
      && (forall x :: x >= Span(n) ==> At(s', n, x) == At(s, n, x))
    ) == true
  }

  /** An absent entry has no tables of the parent under it. */
  lemma NothingBelow(s0: VM, k: Key, x: nat)
    requires Trees(s0) && !k.L1? && !At(s0, k, x).present
    ensures forall j :: j in s0.tab && StrictlyBelow(k, j) ==> Branch(k, j) != x
  {
    forall j | j in s0.tab && StrictlyBelow(k, j) ensures Branch(k, j) != x {
      assert Linked(s0, j);
      if Parent(j) != k {
        assert Linked(s0, Parent(j));
        if Parent(Parent(j)) != k {
          assert Linked(s0, Parent(Parent(j)));
        }
      }
    }
  }

  /** The loop of vmm_clone_pd, vmm_clone_pdpt and vmm_cow_clone over one table:
      s1 before entry x, s2 with the child table allocated, s3 with the child
      filled, s4 with it hung in. */
  lemma SubtreeDone(s0: VM, s: VM, s1: VM, s2: VM, s3: VM, s4: VM, k: Key, x: nat, r: Frame, c: Frame)
    requires !k.L1? && k.root == r && 0 <= x < Span(k) && c != r && In(k, c) in s1.tab
    requires OnlyBelow(s, s1, In(k, c)) && HangsBelow(s1, In(k, c), x)
    requires CopiedBelow(s0, s1, In(k, c), r) && CompleteBelow(s0, s1, k, c, x)
    requires TableAdded(s1, s2, In(Child(k, x), c))
    requires OnlyBelow(s2, s3, In(Child(k, x), c)) && HangsBelow(s3, In(Child(k, x), c), 512)
    requires CopiedBelow(s0, s3, In(Child(k, x), c), r) && CompleteBelow(s0, s3, Child(k, x), c, 512)
    requires TableHung(s3, s4, In(k, c), x, In(Child(k, x), c))
    requires forall j :: j in s0.tab ==> KeyOk(j)
    ensures OnlyBelow(s, s4, In(k, c)) && HangsBelow(s4, In(k, c), x + 1)
    ensures CopiedBelow(s0, s4, In(k, c), r) && CompleteBelow(s0, s4, k, c, x + 1)
  {
    var n, m := In(k, c), In(Child(k, x), c);
    assert StrictlyBelow(n, m) && Branch(n, m) == x;
    SubtreeOnlyBelow(s, s1, s2, s3, s4, n, m, x);
    SubtreeHangs(s1, s2, s3, s4, n, m, x);
    SubtreeCopied(s0, s1, s2, s3, s4, n, m, x, r);
    if FreePageCount(s4.pmm) > 0 {
      forall j | j in s0.tab && StrictlyBelow(k, j) && Branch(k, j) < x + 1 ensures In(j, c) in s4.tab {
        BelowChild(k, x, j);
        if StrictlyBelow(Child(k, x), j) {
          assert KeyOk(j);
          assert Branch(Child(k, x), j) < 512;
        }
      }
    }
  }

  lemma SubtreeCopied(s0: VM, s1: VM, s2: VM, s3: VM, s4: VM, n: Key, m: Key, x: nat, r: Frame)
    requires !n.L1? && m == Child(n, x) && 0 <= x < Span(n)
    requires CopiedBelow(s0, s1, n, r) && TableAdded(s1, s2, m)
    requires OnlyBelow(s2, s3, m) && CopiedBelow(s0, s3, m, r) && TableHung(s3, s4, n, x, m)
    ensures CopiedBelow(s0, s4, n, r)
  {
    forall j: Key, y | j in s4.tab && j.L1? && Below(n, j) && At(s0, In(j, r), y).present
      ensures At(s4, j, y).present
    {
      if !Below(m, j) {
        assert j in s2.tab && j in s1.tab;
        assert At(s3, j, y) == At(s2, j, y) == At(s1, j, y);
      } else {
        assert At(s3, j, y).present;
      }
    }
  }

  lemma SubtreeOnlyBelow(s: VM, s1: VM, s2: VM, s3: VM, s4: VM, n: Key, m: Key, x: nat)
    requires StrictlyBelow(n, m) && 0 <= x < Span(n)
    requires OnlyBelow(s, s1, n) && TableAdded(s1, s2, m) && OnlyBelow(s2, s3, m) && TableHung(s3, s4, n, x, m)
    ensures OnlyBelow(s, s4, n)
  {
    forall j | j in s4.tab && j !in s.tab ensures StrictlyBelow(n, j) {
      assert j in s3.tab;
      if j in s2.tab && j != m { assert j in s1.tab; }
    }
  }

  lemma SubtreeHangs(s1: VM, s2: VM, s3: VM, s4: VM, n: Key, m: Key, x: nat)
    requires !n.L1? && m == Child(n, x) && 0 <= x < Span(n)
    requires HangsBelow(s1, n, x) && TableAdded(s1, s2, m)
    requires OnlyBelow(s2, s3, m) && HangsBelow(s3, m, 512) && TableHung(s3, s4, n, x, m)
    ensures HangsBelow(s4, n, x + 1)
  {
    forall j | j in s4.tab && StrictlyBelow(n, j) ensures Branch(n, j) < x + 1 && Linked(s4, j) {
      if StrictlyBelow(m, j) {
        BelowChild(n, x, j);
        assert Linked(s3, j);
        assert At(s4, Parent(j), Slot(j)).present;
      } else if j != m {
        BelowChild(n, x, j);
        assert j in s2.tab && j in s1.tab;
        assert Linked(s1, j) && Branch(n, j) < x;
        assert !Below(m, Parent(j));
        assert At(s4, Parent(j), Slot(j)).present;
      }
    }
  }

  /** The loop of vmm_clone_pt before entry i; s is the state it started from. */
  ghost predicate PtLoop(s0: VM, s: VM, s': VM, k: Key, c: Frame, i: nat)
  {
    (
      && CloneInv(s0, s', k.root, c)
      && OnlyBelow(s, s', In(k, c))
      && (forall x :: 0 <= x < i && At(s0, k, x).present ==> At(s', In(k, c), x).present)
      && (forall x :: i <= x < 512 ==> At(s', In(k, c), x) == ZERO)
    ) == true
  }

  /** One entry of the leaf table at k was handled: s1 becomes s2. */
  ghost predicate EntryDone(s1: VM, s2: VM, k: Key, c: Frame, i: nat)
  {
    && s2.tab == s1.tab && FreePageCount(s2.pmm) == FreePageCount(s1.pmm)
    && (forall j, y {:trigger At(s2, j, y)} :: At(s2, j, y) ==
          if (j == k || j == In(k, c)) && y == i then Shared(At(s1, k, i)) else At(s1, j, y))
  }

  lemma EntryStep(s0: VM, s: VM, s1: VM, s2: VM, k: Key, c: Frame, i: nat)
    requires PtLoop(s0, s, s1, k, c, i) && k.L1? && k in s0.tab && Ix(i)
    requires CloneInv(s0, s2, k.root, c) && c != k.root
    requires if At(s1, k, i).present then EntryDone(s1, s2, k, c, i) else s2 == s1
    ensures PtLoop(s0, s, s2, k, c, i + 1)
  {
    assert CellOk(s0, s1, k, i, c);
    if At(s1, k, i).present {
      PtLoopRest(s0, s, s1, s2, k, c, i);
    }
  }

  lemma PtLoopRest(s0: VM, s: VM, s1: VM, s2: VM, k: Key, c: Frame, i: nat)
    requires k.L1? && Ix(i) && c != k.root
    requires OnlyBelow(s, s1, In(k, c))
    requires forall x :: 0 <= x < i && At(s0, k, x).present ==> At(s1, In(k, c), x).present
    requires forall x :: i <= x < 512 ==> At(s1, In(k, c), x) == ZERO
    requires At(s1, k, i).present && EntryDone(s1, s2, k, c, i)
    ensures OnlyBelow(s, s2, In(k, c))
    ensures forall x :: 0 <= x < i + 1 && At(s0, k, x).present ==> At(s2, In(k, c), x).present
    ensures forall x :: i + 1 <= x < 512 ==> At(s2, In(k, c), x) == ZERO
  {
  }

  /** The loop over an inner table before entry i. */
  ghost predicate TableLoop(s0: VM, s: VM, s': VM, k: Key, c: Frame, i: nat)
  {
    (
      && CloneInv(s0, s', k.root, c)
      && OnlyBelow(s, s', In(k, c)) && HangsBelow(s', In(k, c), i)
      && CopiedBelow(s0, s', In(k, c), k.root) && CompleteBelow(s0, s', k, c, i) && PrefixBelow(s0, s', k, c, i)
    ) == true
  }

  lemma TableLoopSkip(s0: VM, s: VM, s': VM, k: Key, c: Frame, i: nat)
    requires TableLoop(s0, s, s', k, c, i) && !k.L1?
    requires !At(s0, k, i).present || FreePageCount(s'.pmm) == 0
    ensures TableLoop(s0, s, s', k, c, i + 1)
  {
    hide CloneInv, OnlyBelow, CopiedBelow;
    LoopTrees(s0, s, s', k, c, i);
    hide Trees;
    SkipHangs(s', In(k, c), i);
    if !At(s0, k, i).present { NothingBelow(s0, k, i); }
    SkipPrefix(s0, s', k, c, i);
  }

  lemma LoopTrees(s0: VM, s: VM, s': VM, k: Key, c: Frame, i: nat)
    requires TableLoop(s0, s, s', k, c, i)
    ensures Trees(s0)
  {
  }

  lemma SkipHangs(s: VM, n: Key, i: nat)
    requires HangsBelow(s, n, i)
    ensures HangsBelow(s, n, i + 1)
  {
  }

  lemma SkipPrefix(s0: VM, s: VM, k: Key, c: Frame, i: nat)
    requires PrefixBelow(s0, s, k, c, i) && HangsBelow(s, In(k, c), i)
    ensures PrefixBelow(s0, s, k, c, i + 1)
  {
    forall j' | j' in s0.tab && StrictlyBelow(k, j') && In(j', c) in s.tab ensures Branch(k, j') < i {
      assert StrictlyBelow(In(k, c), In(j', c)) && Branch(In(k, c), In(j', c)) == Branch(k, j');
    }
  }

  /** A table at m was allocated and cleared: s1 becomes s2. */
  ghost predicate TableAdded(s1: VM, s2: VM, m: Key)
  {
    && m !in s1.tab && s2.tab.Keys == s1.tab.Keys + {m}
    && FreePageCount(s1.pmm) > 0 && FreePageCount(s2.pmm) <= FreePageCount(s1.pmm)
    && (forall j :: j in s1.tab ==> s2.tab[j] == s1.tab[j])
    && (forall j, y {:trigger At(s2, j, y)} :: At(s2, j, y) == At(s1, j, y))
  }

  /** The table at m was hung into entry x of n: s3 becomes s4. */
  ghost predicate TableHung(s3: VM, s4: VM, n: Key, x: nat, m: Key)
  {
    && s4.tab == s3.tab && s4.pmm == s3.pmm && m in s3.tab && n in s3.tab
    && (forall j, y {:trigger At(s4, j, y)} :: At(s4, j, y) ==
          if j == n && y == x then TableEntry(s3.tab[m]) else At(s3, j, y))
  }

  /** The child table under entry i was allocated in s1, giving s2; the recursive
      call filled it, giving s3; then it was hung in. */
  lemma TableLoopStep(s0: VM, s: VM, s1: VM, s2: VM, s3: VM, s4: VM, k: Key, c: Frame, i: nat)
    requires TableLoop(s0, s, s1, k, c, i) && !k.L1? && k in s0.tab && In(k, c) in s1.tab && 0 <= i < Span(k)
    requires TableAdded(s1, s2, In(Child(k, i), c)) && c != k.root
    requires TableLoop(s0, s2, s3, Child(k, i), c, 512)
    requires TableHung(s3, s4, In(k, c), i, In(Child(k, i), c)) && CloneInv(s0, s4, k.root, c)
    ensures TableLoop(s0, s, s4, k, c, i + 1)
  {
    SubtreeDone(s0, s, s1, s2, s3, s4, k, i, k.root, c);
    SubtreePrefix(s0, s, s1, s2, s3, s4, k, i, c);
  }

  /** There was a frame for the child table, so every table before it has its copy. */
  lemma SubtreePrefix(s0: VM, s: VM, s1: VM, s2: VM, s3: VM, s4: VM, k: Key, x: nat, c: Frame)
    requires !k.L1? && CompleteBelow(s0, s1, k, c, x) && TableAdded(s1, s2, In(Child(k, x), c))
    requires OnlyBelow(s2, s3, In(Child(k, x), c)) && PrefixBelow(s0, s3, Child(k, x), c, 512)
    requires s4.tab == s3.tab && forall j :: j in s0.tab ==> KeyOk(j)
    ensures PrefixBelow(s0, s4, k, c, x + 1)
  {
    var m := Child(k, x);
    forall j, j' | j in s0.tab && j' in s0.tab && StrictlyBelow(k, j) && StrictlyBelow(k, j') && Branch(k, j') < x + 1 &&
                   Before(j, j') && In(j', c) in s4.tab
      ensures In(j, c) in s4.tab
    {
      BranchOrder(k, j, j');
      if Branch(k, j) < x {
        assert In(j, c) in s1.tab;
      } else if j != m {
        BelowChild(k, x, j);
        BelowChild(k, x, j');
        ChildFirst(m, j, j');
        assert KeyOk(j') && Branch(m, j') < 512;
      }
    }
  }

  /** Nothing under m comes before it. */
  lemma ChildFirst(m: Key, j: Key, j': Key)
    requires StrictlyBelow(m, j) && Below(m, j') && Before(j, j')
    ensures StrictlyBelow(m, j')
  {
  }

  /** Before entry i is handled, there is nothing under it in the clone. */
  lemma BranchFree(s0: VM, s: VM, s1: VM, k: Key, c: Frame, i: nat)
    requires TableLoop(s0, s, s1, k, c, i) && !k.L1?
    ensures forall j :: j in s1.tab ==> !Below(In(Child(k, i), c), j)
  {
    hide CloneInv, CopiedBelow, CompleteBelow;
    forall j | j in s1.tab ensures !Below(In(Child(k, i), c), j) {
      BelowChild(In(k, c), i, j);
    }
  }

  /** The parent's tables keep their places, and its inner tables their entries. */
  lemma ParentTables(s0: VM, s: VM, c: Frame, k: Key, x: nat)
    requires CloneInv(s0, s, k.root, c) && k in s0.tab
    ensures k in s.tab && s.tab[k] == s0.tab[k] && 0 < s.tab[k] < |s.mem| && c != k.root && KeyOk(k)
    ensures !k.L1? ==> At(s, k, x) == At(s0, k, x)
    ensures !k.L1? && 0 <= x < Span(k) && At(s, k, x).present ==>
              At(s, k, x).user && Child(k, x) in s0.tab && At(s, k, x).pfn == s0.tab[Child(k, x)]
  {
    hide CloneInv;
    CloneParts(s0, s, k.root, c);
    hide CloneCells, CloneRefs, Good, PmmOk;
    assert s0.own[s0.tab[k]] == Tab(k);
    if !k.L1? && 0 <= x < Span(k) { assert InnerOk(s0, k, x); }
  }

  lemma SelfBelow(s: VM, n: Key)
    ensures OnlyBelow(s, s, n)
  {
  }

  lemma BlankLoop(s0: VM, s: VM, k: Key, c: Frame)
    requires CloneInv(s0, s, k.root, c) && !k.L1? && Blank(s, In(k, c))
    ensures TableLoop(s0, s, s, k, c, 0)
  {
    hide CloneInv;
    SelfBelow(s, In(k, c));
  }

  /** The user half of a PML4 ends at entry 256. */
  lemma TableLoopEnd(s0: VM, s: VM, s': VM, k: Key, c: Frame, i: nat)
    requires TableLoop(s0, s, s', k, c, i) && !k.L1? && i == Span(k)
    ensures TableLoop(s0, s, s', k, c, 512)
  {
    LoopTrees(s0, s, s', k, c, i);
    EndKeys(s0, k, i);
    hide CloneInv, Trees, OnlyBelow, CopiedBelow;
    EndHangs(s', In(k, c), i);
    EndPrefix(s0, s', k, c, i);
  }

  lemma EndKeys(s0: VM, k: Key, i: nat)
    requires Trees(s0) && !k.L1? && i == Span(k)
    ensures forall j {:trigger Branch(k, j)} :: j in s0.tab && StrictlyBelow(k, j) ==> Branch(k, j) < i
  {
    forall j | j in s0.tab && StrictlyBelow(k, j) ensures Branch(k, j) < i { assert KeyOk(j); }
  }

  lemma EndHangs(s: VM, n: Key, i: nat)
    requires HangsBelow(s, n, i) && i <= 512 && i == Span(n)
    ensures HangsBelow(s, n, 512)
  {
  }

  lemma EndPrefix(s0: VM, s: VM, k: Key, c: Frame, i: nat)
    requires PrefixBelow(s0, s, k, c, i) && forall j {:trigger Branch(k, j)} :: j in s0.tab && StrictlyBelow(k, j) ==> Branch(k, j) < i
    ensures PrefixBelow(s0, s, k, c, 512)
  {
  }

  lemma PtIsTable(s0: VM, s: VM, s': VM, k: Key, c: Frame)
    requires PtLoop(s0, s, s', k, c, 512) && k.L1? && k.root != c
    ensures TableLoop(s0, s, s', k, c, 512)
  {
    hide CloneInv;
    assert In(In(k, c), k.root) == k;
    forall j: Key, x | j in s'.tab && j.L1? && Below(In(k, c), j) && At(s0, In(j, k.root), x).present
      ensures At(s', j, x).present
    {
      assert j == In(k, c);
    }
  }

  lemma ChildBlank(s1: VM, s2: VM, n: Key, i: nat)
    requires !n.L1? && TableAdded(s1, s2, Child(n, i))
    requires forall j :: j in s1.tab ==> !Below(Child(n, i), j)
    ensures Blank(s2, Child(n, i))
  {
  }

  lemma BlankPt(s0: VM, s: VM, k: Key, c: Frame)
    requires CloneInv(s0, s, k.root, c) && k.L1? && Blank(s, In(k, c))
    ensures PtLoop(s0, s, s, k, c, 0)
  {
    hide CloneInv;
    SelfBelow(s, In(k, c));
  }

  lemma PtLoopStep(s0: VM, s: VM, s1: VM, k: Key, c: Frame, i: nat)
    requires PtLoop(s0, s, s1, k, c, i) && RefRoom(s0, k.root)
    requires k.L1? && k in s0.tab && In(k, c) in s1.tab && Ix(i)
    ensures Good(s1) && c != k.root && k in s1.tab && s1.tab[k] == s0.tab[k]
    ensures PtLoop(s0, s, if At(s1, k, i).present then CellDone(s1, k, i, c) else s1, k, c, i + 1)
  {
    ParentTables(s0, s1, c, k, i);
    if At(s1, k, i).present {
      CopyCell(s0, s1, k.root, c, k, i);
      CellIsEntryDone(s1, k, c, i);
      EntryStep(s0, s, s1, CellDone(s1, k, i, c), k, c, i);
    } else {
      EntryStep(s0, s, s1, s1, k, c, i);
    }
  }

  lemma CellIsEntryDone(s1: VM, k: Key, c: Frame, i: nat)
    requires Good(s1) && k in s1.tab && In(k, c) in s1.tab && k.L1? && Ix(i)
    ensures EntryDone(s1, CellDone(s1, k, i, c), k, c, i)
  {
    CellDoneAt(s1, k, i, c);
  }

  lemma LoopFacts(s0: VM, s: VM, s': VM, k: Key, c: Frame, i: nat)
    requires TableLoop(s0, s, s', k, c, i)
    ensures CloneInv(s0, s', k.root, c)
    ensures forall j :: j in s.tab ==> j in s'.tab && s'.tab[j] == s.tab[j]
  {
  }

  lemma AddedFacts(s1: VM, s2: VM, m: Key)
    requires TableAdded(s1, s2, m)
    ensures m in s2.tab && forall j :: j in s1.tab ==> j in s2.tab && s2.tab[j] == s1.tab[j]
  {
  }

  lemma AddTableStep(s0: VM, s: VM, r: Frame, c: Frame, m: Key, f: Frame)
    requires CloneInv(s0, s, r, c)
    requires m !in s.tab && m.root == c && !m.L4? && KeyOk(m) && In(m, r) in s0.tab
    requires f == Alloc(s.pmm).1 && f != 0
    ensures f < |s.mem|
    ensures CloneInv(s0, WithTable(Taken(s, f), m, f), r, c)
    ensures TableAdded(s, WithTable(Taken(s, f), m, f), m)
  {
    AddTable(s0, s, r, c, m, f);
    AddTableShape(s, m, f);
  }

  lemma AddTableShape(s: VM, m: Key, f: Frame)
    requires PmmOk(s.pmm) && m !in s.tab && f == Alloc(s.pmm).1 && f != 0 && f < |s.mem|
    requires forall j, x {:trigger At(WithTable(Taken(s, f), m, f), j, x)} ::
               At(WithTable(Taken(s, f), m, f), j, x) == At(s, j, x)
    ensures TableAdded(s, WithTable(Taken(s, f), m, f), m)
  {
    AllocOk(s.pmm);
  }

  lemma CloneGood(s0: VM, s: VM, r: Frame, c: Frame)
    requires CloneInv(s0, s, r, c)
    ensures Good(s)
  {
  }
}
