/**
 The elementary changes every operation of mm/vmm.c is made of - a table
 frame allocated, a table hung into its parent, a leaf entry written - and
 what each of them keeps.
 */
module VmSteps {
  import opened Options
  import opened PmmSpec
  import opened PageTables

  /** A frame taken from the allocator and cleared. */
  ghost function Taken(s: VM, f: Frame): VM
    requires PmmOk(s.pmm) && f < |s.mem|
  {
    s.(pmm := Alloc(s.pmm).0, mem := s.mem[f := ZeroPage()])
  }

  lemma TakenOk(s: VM, f: Frame)
    requires Good(s) && f == Alloc(s.pmm).1 && f != 0
    ensures f < |s.mem| && !s.pmm.used[f] && f !in s.own
    ensures Good(Taken(s, f))
    ensures forall k, x {:trigger At(Taken(s, f), k, x)} :: At(Taken(s, f), k, x) == At(s, k, x)
  {
    AllocOk(s.pmm);
    SameEntriesOk(s, Taken(s, f));
  }

  lemma FreeNat(s: VM)
    requires Trees(s)
    ensures FreePageCount(s.pmm) >= 0
  {
  }

  /** EntriesOk only looks at the entries, the places and the owners. */
  lemma SameEntriesOk(s: VM, s': VM)
    requires EntriesOk(s)
    requires forall k, x {:trigger At(s', k, x)} :: At(s', k, x) == At(s, k, x)
    requires forall k :: k in s.tab ==> k in s'.tab && s'.tab[k] == s.tab[k]
    requires forall f :: f in s.own ==> f in s'.own && s'.own[f] == s.own[f]
    ensures EntriesOk(s')
  {
    forall k: Key, x | !k.L1? && 0 <= x < Span(k) ensures InnerOk(s', k, x) {
      assert InnerOk(s, k, x);
    }
    forall k: Key, x | k.L1? && Ix(x) ensures LeafOk(s', k, x) {
      assert LeafOk(s, k, x);
    }
  }

  /** A cleared frame of nobody becomes the table at k, not hung in yet. */
  ghost function WithTable(s: VM, k: Key, f: Frame): VM
  {
    s.(tab := s.tab[k := f], own := s.own[f := Tab(k)])
  }

  lemma WithTableOk(s: VM, k: Key, f: Frame)
    requires Good(s) && KeyOk(k) && k !in s.tab && !k.L4?
    requires 0 < f < |s.mem| && f !in s.own && s.pmm.used[f]
    requires forall x :: Ix(x) ==> s.mem[f][x] == ZERO
    ensures Good(WithTable(s, k, f))
    ensures forall j, x {:trigger At(WithTable(s, k, f), j, x)} :: At(WithTable(s, k, f), j, x) == At(s, j, x)
  {
    GoodParts(s);
    hide Good;
    OwnTable(s.tab, s.own, s.pmm.used, |s.mem|, k, f);
    NotPlaced(s, f);
    SameEntriesOk(s, WithTable(s, k, f));
    hide PlacesOk, OwnersOk, EntriesOk, PmmOk;
    GoodWhole(WithTable(s, k, f));
  }

  lemma GoodParts(s: VM)
    requires Good(s)
    ensures |s.mem| == |s.pmm.used| && PmmOk(s.pmm)
    ensures PlacesOk(s.tab, s.own, |s.mem|) && OwnersOk(s.tab, s.own, s.pmm.used) && EntriesOk(s)
  {
  }

  lemma GoodWhole(s: VM)
    requires |s.mem| == |s.pmm.used| && PmmOk(s.pmm)
    requires PlacesOk(s.tab, s.own, |s.mem|) && OwnersOk(s.tab, s.own, s.pmm.used) && EntriesOk(s)
    ensures Good(s)
  {
  }

  /** A frame of nobody holds no table. */
  lemma NotPlaced(s: VM, f: Frame)
    requires PlacesOk(s.tab, s.own, |s.mem|) && f !in s.own
    ensures forall k :: k in s.tab ==> s.tab[k] != f
  {
  }

  /** A frame of nobody becomes a table. */
  lemma OwnTable(tab: map<Key, Frame>, own: map<Frame, Owner>, used: seq<bool>, n: nat, k: Key, f: Frame)
    requires PlacesOk(tab, own, n) && OwnersOk(tab, own, used) && f !in own && 0 < f < |used| == n && k !in tab && KeyOk(k)
    ensures PlacesOk(tab[k := f], own[f := Tab(k)], n) && OwnersOk(tab[k := f], own[f := Tab(k)], used[f := true])
    ensures used[f] ==> OwnersOk(tab[k := f], own[f := Tab(k)], used)
  {
  }

  /** A frame of nobody, or of page v already, is kept for page v. */
  lemma OwnOne(tab: map<Key, Frame>, own: map<Frame, Owner>, used: seq<bool>, n: nat, v: VPage, g: Frame)
    requires PlacesOk(tab, own, n) && OwnersOk(tab, own, used) && 0 < g < |used| && InUserHalf(v)
    requires g in own ==> own[g] == Pg(v)
    ensures PlacesOk(tab, own[g := Pg(v)], n) && OwnersOk(tab, own[g := Pg(v)], used[g := true])
    ensures used[g] ==> OwnersOk(tab, own[g := Pg(v)], used)
  {
  }

  /** Entry x of the table at k is written. */
  ghost function WithEntry(s: VM, k: Key, x: nat, e: Word): VM
    requires k in s.tab && s.tab[k] < |s.mem| && Ix(x)
  {
    s.(mem := s.mem[s.tab[k] := s.mem[s.tab[k]][x := e]])
  }

  /** Tables are never aliased: one entry of one table changes. */
  lemma AtWithEntry(s: VM, k: Key, x: nat, e: Word)
    requires PlacesOk(s.tab, s.own, |s.mem|) && k in s.tab && Ix(x)
    ensures forall j, y {:trigger At(WithEntry(s, k, x, e), j, y)} :: At(WithEntry(s, k, x, e), j, y) == if j == k && y == x then e else At(s, j, y)
  {
  }

  lemma HungOk(s: VM, k: Key, x: nat)
    requires Good(s) && k in s.tab && !k.L1? && 0 <= x < Span(k) && Child(k, x) in s.tab
    ensures Good(WithEntry(s, k, x, TableEntry(s.tab[Child(k, x)])))
  {
    var s' := WithEntry(s, k, x, TableEntry(s.tab[Child(k, x)]));
    AtWithEntry(s, k, x, TableEntry(s.tab[Child(k, x)]));
    forall j: Key, y | !j.L1? && 0 <= y < Span(j) ensures InnerOk(s', j, y) {
      assert InnerOk(s, j, y);
    }
    forall j: Key, y | j.L1? && Ix(y) ensures LeafOk(s', j, y) {
      assert LeafOk(s, j, y);
    }
  }

  lemma LeafWriteOk(s: VM, k: Key, x: nat, e: Word)
    requires Good(s) && k in s.tab && k.L1? && Ix(x)
    requires UserPage(e) ==> e.pfn in s.own && s.own[e.pfn] == Pg(Leaf(k, x))
    ensures Good(WithEntry(s, k, x, e))
  {
    var s' := WithEntry(s, k, x, e);
    AtWithEntry(s, k, x, e);
    forall j: Key, y | !j.L1? && 0 <= y < Span(j) ensures InnerOk(s', j, y) {
      assert InnerOk(s, j, y);
    }
    forall j: Key, y | j.L1? && Ix(y) ensures LeafOk(s', j, y) {
      assert LeafOk(s, j, y);
    }
  }

  /** Writing a leaf entry does not change which tables hang where. */
  lemma LeafWriteTrees(s: VM, k: Key, x: nat, e: Word)
    requires Trees(s) && k in s.tab && k.L1? && Ix(x)
    requires UserPage(e) ==> e.pfn in s.own && s.own[e.pfn] == Pg(Leaf(k, x))
    ensures Trees(WithEntry(s, k, x, e))
  {
    LeafWriteOk(s, k, x, e);
    AtWithEntry(s, k, x, e);
    TreesKept(s, WithEntry(s, k, x, e));
  }

  lemma LeafWriteFacts(s: VM, k: Key, x: nat, e: Word)
    requires Trees(s) && k in s.tab && k.L1? && Ix(x)
    requires UserPage(e) ==> e.pfn in s.own && s.own[e.pfn] == Pg(Leaf(k, x))
    ensures s.tab[k] < |s.mem| && Trees(WithEntry(s, k, x, e))
    ensures forall j, y {:trigger At(WithEntry(s, k, x, e), j, y)} ::
              At(WithEntry(s, k, x, e), j, y) == if j == k && y == x then e else At(s, j, y)
  {
    LeafWriteTrees(s, k, x, e);
    AtWithEntry(s, k, x, e);
  }

  /** A missing table allocated and hung under entry x of k. */
  ghost function Grown(s: VM, k: Key, x: nat, f: Frame): VM
    requires PmmOk(s.pmm) && k in s.tab && !k.L1? && s.tab[k] < |s.mem| && f < |s.mem| && Ix(x)
  {
    WithEntry(WithTable(Taken(s, f), Child(k, x), f), k, x, TableEntry(f))
  }

  lemma GrownGood(s: VM, k: Key, x: nat, f: Frame)
    requires Good(s) && k in s.tab && !k.L1? && 0 <= x < Span(k) && Child(k, x) !in s.tab
    requires f == Alloc(s.pmm).1 && f != 0
    ensures f < |s.mem| && f !in s.own && !s.pmm.used[f]
    ensures var s' := Grown(s, k, x, f);
            && Good(s') && s'.tab == s.tab[Child(k, x) := f]
            && forall j, y {:trigger At(s', j, y)} :: At(s', j, y) == if j == k && y == x then TableEntry(f) else At(s, j, y)
  {
    AllocOk(s.pmm);
    TakenOk(s, f);
    var s1 := Taken(s, f);
    WithTableOk(s1, Child(k, x), f);
    var s2 := WithTable(s1, Child(k, x), f);
    HungOk(s2, k, x);
    AtWithEntry(s2, k, x, TableEntry(f));
  }

  lemma GrownOk(s: VM, k: Key, x: nat, f: Frame)
    requires Trees(s) && k in s.tab && !k.L1? && 0 <= x < Span(k) && !At(s, k, x).present
    requires f == Alloc(s.pmm).1 && f != 0
    ensures f < |s.mem| && f !in s.own && Child(k, x) !in s.tab && !s.pmm.used[f]
    ensures var s' := Grown(s, k, x, f);
            && Trees(s')
            && forall j, y {:trigger At(s', j, y)} :: At(s', j, y) == if j == k && y == x then TableEntry(f) else At(s, j, y)
  {
    hide Trees, Good, PmmOk, Alloc, Grown;
    BranchMissing(s, k, x);
    GrownGood(s, k, x, f);
    var s' := Grown(s, k, x, f);
    assert Linked(s', Child(k, x));
    TreesKept(s, s');
  }

  lemma BranchMissing(s: VM, k: Key, x: nat)
    requires Trees(s) && k in s.tab && !k.L1? && !At(s, k, x).present
    ensures Good(s) && PmmOk(s.pmm) && s.tab[k] < |s.mem| && L4(k.root) in s.tab && Child(k, x) !in s.tab
  {
    assert Child(k, x) in s.tab ==> Linked(s, Child(k, x));
    assert Linked(s, k);
  }

  /** A state that keeps the tables, and the links, of s is a forest again once
      every additional table hangs somewhere. */
  lemma TreesKept(s: VM, s': VM)
    requires Trees(s) && Good(s')
    requires forall k :: k in s.tab ==> k in s'.tab && s'.tab[k] == s.tab[k]
    requires forall k: Key, x :: !k.L1? && At(s, k, x).present ==> At(s', k, x).present
    requires forall k :: k in s'.tab && k !in s.tab ==>
               Linked(s', k) && L4(k.root) in s'.tab && (k.L4? ==> s'.tab[k] == k.root)
    ensures Trees(s')
  {
    forall k | k in s'.tab ensures Linked(s', k) && L4(k.root) in s'.tab {
      if k in s.tab {
        assert Linked(s, k);
      }
    }
  }

  /** Two states with the same user entries, the same owners of user memory and
      the same counts of those frames agree on FramesOk. */
  lemma FramesKept(s: VM, s': VM)
    requires FramesOk(s) && |s.pmm.rc| == |s'.pmm.rc|
    requires forall r, v :: Pte(s', r, v) == Pte(s, r, v)
    requires forall f :: f in s'.own && s'.own[f].Pg? ==>
               f in s.own && s.own[f] == s'.own[f] && (f < |s.pmm.rc| ==> s'.pmm.rc[f] == s.pmm.rc[f])
    ensures FramesOk(s')
  {
    forall f | f in s'.own && s'.own[f].Pg? ensures FrameOk(s', f) {
      var v := s'.own[f].v;
      assert FrameOk(s, f);
      forall r ensures r in Mappers(s', v, f) <==> r in Mappers(s, v, f) {
        MappersIff(s, v, f, r);
        MappersIff(s', v, f, r);
      }
      assert Mappers(s', v, f) == Mappers(s, v, f);
    }
  }

  /** Going from s to s' only allocated tables and hung them in: no page is
      mapped differently and no user page, kernel entry or other frame in use
      was touched. */
  ghost predicate Extends(s: VM, s': VM)
  {
    (
      && |s'.mem| == |s.mem| && |s'.pmm.used| == |s.pmm.used| == |s.mem|
      && |s'.pmm.rc| == |s.pmm.rc| == MAX_PAGES && s'.pmm.usablePages == s.pmm.usablePages
      && (forall k :: k in s.tab ==> k in s'.tab && s'.tab[k] == s.tab[k])
      && (forall k :: k in s'.tab && k !in s.tab ==> !k.L4?)
      && (forall f :: f in s.own ==> f in s'.own && s'.own[f] == s.own[f])
      && (forall f :: f in s'.own && f !in s.own ==> s'.own[f].Tab? && f < |s.mem| && !s.pmm.used[f])
      && (forall f :: 0 <= f < |s.mem| && s.pmm.used[f] ==> s'.pmm.used[f])
      && (forall f :: 0 <= f < |s.mem| && s.pmm.used[f] && f < MAX_PAGES ==> s'.pmm.rc[f] == s.pmm.rc[f])
      && (forall f :: 0 <= f < |s.mem| && s.pmm.used[f] && !(f in s.own && s.own[f].Tab?) ==>
            s'.mem[f] == s.mem[f])
      && (forall k: Key, x {:trigger At(s', k, x)} :: k.L4? && 256 <= x < 512 ==> At(s', k, x) == At(s, k, x))
      && (forall k: Key, x {:trigger At(s', k, x)} :: k.L1? ==> At(s', k, x) == At(s, k, x))
    ) == true
  }

  /** A frame that was allocated and given to nobody. */
  lemma TakenExtends(s: VM, f: Frame)
    requires Trees(s) && f == Alloc(s.pmm).1 && f != 0
    ensures f < |s.mem| && Trees(Taken(s, f)) && Extends(s, Taken(s, f))
  {
    AllocOk(s.pmm);
    TakenOk(s, f);
    TreesKept(s, Taken(s, f));
  }

  lemma ExtendsTransitive(s: VM, s': VM, s'': VM)
    requires Extends(s, s') && Extends(s', s'')
    ensures Extends(s, s'')
  {
  }

  lemma GrownExtends(s: VM, k: Key, x: nat, f: Frame)
    requires Trees(s) && k in s.tab && !k.L1? && 0 <= x < Span(k) && !At(s, k, x).present
    requires f == Alloc(s.pmm).1 && f != 0
    ensures f < |s.mem| && Extends(s, Grown(s, k, x, f))
  {
    GrownOk(s, k, x, f);
    CellsExtend(s, Grown(s, k, x, f), k, x, f);
  }

  lemma CellsExtend(s: VM, s': VM, k: Key, x: nat, f: Frame)
    requires |s.mem| == |s.pmm.used| && |s.pmm.rc| == MAX_PAGES
    requires k in s.tab && !k.L1? && 0 <= x < Span(k) && Child(k, x) !in s.tab
    requires s.tab[k] in s.own && s.own[s.tab[k]].Tab? && s.tab[k] != f
    requires 0 < f < |s.mem| && f !in s.own && !s.pmm.used[f]
    requires forall g :: g in s.own ==> g < |s.pmm.used| && s.pmm.used[g]
    requires s'.mem == s.mem[f := ZeroPage()][s.tab[k] := s.mem[s.tab[k]][x := TableEntry(f)]]
    requires s'.tab == s.tab[Child(k, x) := f] && s'.own == s.own[f := Tab(Child(k, x))]
    requires s'.pmm.used == s.pmm.used[f := true] && s'.pmm.usablePages == s.pmm.usablePages
    requires s'.pmm.rc == if f < MAX_PAGES then s.pmm.rc[f := 1] else s.pmm.rc
    requires forall j, y {:trigger At(s', j, y)} :: At(s', j, y) == if j == k && y == x then TableEntry(f) else At(s, j, y)
    ensures Extends(s, s')
  {
  }

  lemma ExtendsFrames(s: VM, s': VM)
    requires Inv(s) && Trees(s') && Extends(s, s')
    ensures Inv(s')
  {
    FramesKept(s, s');
  }

  lemma ExtendsSelf(s: VM)
    requires Trees(s)
    ensures Extends(s, s)
  {
  }

  /** Entry x of the inner table at k, as vmm_get_next_level finds it. */
  lemma SlotFacts(s: VM, k: Key, x: nat)
    requires Trees(s) && k in s.tab && !k.L1? && 0 <= x < Span(k)
    ensures Good(s) && 0 < s.tab[k] < |s.mem| && At(s, k, x) == s.mem[s.tab[k]][x]
    ensures At(s, k, x).present <==> Child(k, x) in s.tab
    ensures At(s, k, x).present ==> At(s, k, x).pfn == s.tab[Child(k, x)]
  {
    assert InnerOk(s, k, x);
    assert Child(k, x) in s.tab ==> Linked(s, Child(k, x));
  }

  /** A table has all the tables on its path. */
  lemma PathFacts(s: VM, root: Frame, v: VPage)
    requires Trees(s)
    ensures L4(root) in s.tab ==> s.tab[L4(root)] == root
    ensures TableOf(root, v) in s.tab ==> L2(root, v.a, v.b) in s.tab && L3(root, v.a) in s.tab
    ensures forall k :: k in s.tab ==> 0 < s.tab[k] < |s.mem|
  {
    assert TableOf(root, v) in s.tab ==> Linked(s, TableOf(root, v));
    assert L2(root, v.a, v.b) in s.tab ==> Linked(s, L2(root, v.a, v.b));
  }

  lemma ExtendsKeeps(s: VM, s': VM)
    requires Extends(s, s')
    ensures |s'.mem| == |s.mem| && forall k :: k in s.tab ==> k in s'.tab && s'.tab[k] == s.tab[k]
  {
  }

  /** The page behind entry e belongs to v from now on. */
  ghost function WithPage(s: VM, v: VPage, e: Word): VM
  {
    if UserPage(e) then s.(own := s.own[e.pfn := Pg(v)]) else s
  }

  /** Frame e.pfn, in use and not serving anything else, can be mapped at v. */
  ghost predicate Mappable(s: VM, v: VPage, e: Word)
  {
    UserPage(e) ==> 0 < e.pfn < |s.mem| == |s.pmm.used| && s.pmm.used[e.pfn] &&
                    (e.pfn in s.own ==> s.own[e.pfn] == Pg(v))
  }

  lemma MapTrees(s: VM, mid: VM, root: Frame, v: VPage, e: Word)
    requires Trees(mid) && Extends(s, mid) && InUserHalf(v) && TableOf(root, v) in mid.tab && Mappable(s, v, e)
    ensures mid.tab[TableOf(root, v)] < |mid.mem| && Trees(WithEntry(WithPage(mid, v, e), TableOf(root, v), v.d, e))
  {
    hide Extends, Trees, Mappable;
    WithPageTrees(s, mid, v, e);
    PathFacts(mid, root, v);
    PageOwned(WithPage(mid, v, e), v, e);
    LeafWriteTrees(WithPage(mid, v, e), TableOf(root, v), v.d, e);
  }

  lemma PageOwned(s: VM, v: VPage, e: Word)
    ensures UserPage(e) ==> e.pfn in WithPage(s, v, e).own && WithPage(s, v, e).own[e.pfn] == Pg(v)
  {
  }

  /** Whatever e is, writing it changes one translation: the walks go through the inner
      tables, and these do not share a frame with a leaf table. */
  lemma WriteTranslates(s: VM, root: Frame, v: VPage, e: Word, q: Frame, u: VPage)
    requires Trees(s) && InUserHalf(v) && InUserHalf(u) && TableOf(root, v) in s.tab && L4(q) in s.tab
    ensures var t := s.tab[TableOf(root, v)];
            && t < |s.mem|
            && Translate(s.mem[t := s.mem[t][v.d := e]], q, u) == if q == root && u == v then e else Translate(s.mem, q, u)
  {
    hide Trees;
    var k := TableOf(root, v);
    var k4, k3, k2, k1 := L4(q), L3(q, u.a), L2(q, u.a, u.b), TableOf(q, u);
    Apart(s, k, k4);
    Apart(s, k, k3);
    Apart(s, k, k2);
    Apart(s, k, k1);
    var t := s.tab[k];
    var mem := s.mem[t := s.mem[t][v.d := e]];
    StepDown(s, k4, u.a);
    if k3 in s.tab { StepDown(s, k3, u.b); } else { NoneUnder(s, k3, k); }
    if k2 in s.tab { StepDown(s, k2, u.c); } else { NoneUnder(s, k2, k); }
    assert WalkToPt(mem, q, u) == WalkToPt(s.mem, q, u);
    assert k1 == k && u.d == v.d <==> q == root && u == v;
  }

  /** The entry for a child leads to its table exactly if there is one. */
  lemma StepDown(s: VM, k: Key, x: nat)
    requires Trees(s) && k in s.tab && !k.L1? && 0 <= x < Span(k)
    ensures 0 < s.tab[k] < |s.mem|
    ensures var e := s.mem[s.tab[k]][x];
            (e.present <==> Child(k, x) in s.tab) && (e.present ==> e.pfn == s.tab[Child(k, x)])
  {
    assert InnerOk(s, k, x);
    assert Child(k, x) in s.tab ==> Linked(s, Child(k, x));
  }

  /** Without a table there is none under it. */
  lemma NoneUnder(s: VM, k: Key, j: Key)
    requires Trees(s) && k !in s.tab && j in s.tab && j.L1?
    ensures !Below(k, j)
  {
    assert Linked(s, j);
    assert Linked(s, Parent(j));
    assert Linked(s, Parent(Parent(j)));
  }

  /** Different tables are in different frames. */
  lemma Apart(s: VM, k: Key, j: Key)
    requires Trees(s) && k in s.tab
    ensures s.tab[k] < |s.mem| && (j in s.tab && j != k ==> s.tab[j] != s.tab[k] && s.tab[j] < |s.mem|)
    ensures j in s.tab && j.L4? ==> s.tab[j] == j.root
  {
    assert s.own[s.tab[k]] == Tab(k);
    if j in s.tab { assert s.own[s.tab[j]] == Tab(j); }
  }

  lemma WithPageTrees(s: VM, mid: VM, v: VPage, e: Word)
    requires Trees(mid) && Extends(s, mid) && InUserHalf(v) && Mappable(s, v, e)
    ensures Trees(WithPage(mid, v, e))
  {
    if UserPage(e) {
      OwnPage(mid, v, e.pfn);
    }
  }

  lemma OwnPage(mid: VM, v: VPage, f: Frame)
    requires Trees(mid) && InUserHalf(v) && 0 < f < |mid.mem| && mid.pmm.used[f]
    requires f in mid.own ==> mid.own[f] == Pg(v)
    ensures Trees(mid.(own := mid.own[f := Pg(v)]))
  {
    var m := mid.(own := mid.own[f := Pg(v)]);
    TreesGood(mid);
    hide Trees;
    GoodParts(mid);
    hide Good;
    OwnOne(mid.tab, mid.own, mid.pmm.used, |mid.mem|, v, f);
    SameEntriesOk(mid, m);
    hide PlacesOk, OwnersOk, EntriesOk, PmmOk;
    GoodWhole(m);
    TreesKept(mid, m);
  }

  lemma TreesGood(s: VM)
    requires Trees(s)
    ensures Good(s)
  {
  }

  /** What the hardware walk finds, before and after a mapping. */
  lemma SameTranslations(s: VM, s': VM, ok: bool, root: Frame, v: VPage, e: Word)
    requires Trees(s) && Trees(s') && InUserHalf(v)
    requires forall k :: k in s.tab ==> k in s'.tab
    requires forall k: Key, x {:trigger At(s', k, x)} :: k.L1? ==>
               At(s', k, x) == if ok && k == TableOf(root, v) && x == v.d then e else At(s, k, x)
    ensures forall q, u :: L4(q) in s.tab && InUserHalf(u) ==>
              Translate(s'.mem, q, u) == if ok && q == root && u == v then e else Translate(s.mem, q, u)
  {
    forall q, u | L4(q) in s.tab && InUserHalf(u)
      ensures Translate(s'.mem, q, u) == if ok && q == root && u == v then e else Translate(s.mem, q, u)
    {
      TranslateIsPte(s, q, u);
      TranslateIsPte(s', q, u);
      assert TableOf(q, u) == TableOf(root, v) && u.d == v.d <==> q == root && u == v;
    }
  }

  lemma LeavesKept(s: VM, s': VM)
    requires Extends(s, s')
    ensures forall k: Key, x {:trigger At(s', k, x)} :: k.L1? ==> At(s', k, x) == At(s, k, x)
  {
  }
}
