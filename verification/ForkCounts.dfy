/**
 How many frames vmm_cow_clone takes, and exactly when it copies the whole space.
 */
module ForkCounts {
  import opened PmmSpec
  import opened PageTables
  import opened CloneSteps
  import opened SpaceOps

  // ---- Counting ---------------------------------------------------------------------

  function FreeSet(used: seq<bool>): set<Frame> { set f: Frame | f < |used| && !used[f] }

  lemma {:induction false} CountFreeIs(used: seq<bool>)
    ensures CountFree(used) == |FreeSet(used)|
  {
    if used != [] {
      var n := |used| - 1;
      CountFreeIs(used[..n]);
      if used[n] {
        assert FreeSet(used) == FreeSet(used[..n]);
      } else {
        assert FreeSet(used) == FreeSet(used[..n]) + {n};
      }
    }
  }

  /** An injective map has as many values as keys. */
  lemma {:induction false} SameSize<K, V>(m: map<K, V>)
    requires forall k, k' :: k in m && k' in m && m[k] == m[k'] ==> k == k'
    ensures |m.Values| == |m.Keys|
    decreases |m|
  {
    if m.Keys != {} {
      var k :| k in m.Keys;
      var rest := m - {k};
      assert rest.Keys == m.Keys - {k};
      assert rest.Values == m.Values - {m[k]} by {
        forall v ensures v in rest.Values <==> v in m.Values - {m[k]} {
          if v in m.Values && v != m[k] {
            var j :| j in m && m[j] == v;
            assert j in rest && rest[j] == v;
          }
        }
      }
      assert m[k] in m.Values;
      SameSize(rest);
    } else {
      assert m.Values == {};
    }
  }

  lemma Subset<T>(a: set<T>, b: set<T>)
    requires a <= b
    ensures |b - a| == |b| - |a| && (|a| == |b| ==> a == b)
  {
    assert b == a + (b - a);
    if a != b {
      var x :| x in b - a;
      assert |b - a| > 0;
    }
  }

  // ---- Tables of a space ------------------------------------------------------------

  /** The tables of root r, the root included. */
  ghost function TablesOf(s: VM, r: Frame): set<Key> { set k | k in s.tab && k.root == r }

  ghost function TableCount(s: VM, r: Frame): nat { |TablesOf(s, r)| }

  /** Every table of r has its copy. */
  ghost predicate AllTables(s0: VM, s1: VM, r: Frame, c: Frame)
  {
    forall k {:trigger In(k, c)} :: k in s0.tab && k.root == r ==> In(k, c) in s1.tab
  }

  /** Each table of the clone is in a frame that was free, and no other frame was taken. */
  lemma NewFrames(s0: VM, s1: VM, r: Frame, c: Frame)
    requires Forked(s0, s1, r, c)
    ensures var m := map k | k in s1.tab && k.root == c :: s1.tab[k];
            && m.Keys == TablesOf(s1, c)
            && (forall k, k' :: k in m && k' in m && m[k] == m[k'] ==> k == k')
            && m.Values == FreeSet(s0.pmm.used) - FreeSet(s1.pmm.used)
            && FreeSet(s1.pmm.used) <= FreeSet(s0.pmm.used)
  {
    hide Forked, CloneInv, Good;
    ForkedClone(s0, s1, r, c);
    CloneParts(s0, s1, r, c);
    CloneGoodParts(s0, s1);
    NewPlaces(s0, s1.tab, s1.own, s1.pmm.used, |s1.mem|, r, c);
  }

  lemma CloneGoodParts(s0: VM, s1: VM)
    requires Trees(s0) && Good(s1)
    ensures PlacesOk(s1.tab, s1.own, |s1.mem|) && OwnersOk(s1.tab, s1.own, s1.pmm.used) && |s1.mem| == |s1.pmm.used|
    ensures OwnersOk(s0.tab, s0.own, s0.pmm.used) && PlacesOk(s0.tab, s0.own, |s0.mem|)
  {
  }

  lemma NewPlaces(s0: VM, tab: map<Key, Frame>, own: map<Frame, Owner>, used: seq<bool>, n: nat, r: Frame, c: Frame)
    requires CloneTabs(s0, tab, own, used, r, c) && PlacesOk(tab, own, n) && OwnersOk(tab, own, used) && |used| == n
    requires OwnersOk(s0.tab, s0.own, s0.pmm.used) && PlacesOk(s0.tab, s0.own, |s0.mem|)
    ensures var m := map k | k in tab && k.root == c :: tab[k];
            && (forall k, k' :: k in m && k' in m && m[k] == m[k'] ==> k == k')
            && m.Values == FreeSet(s0.pmm.used) - FreeSet(used)
            && FreeSet(used) <= FreeSet(s0.pmm.used)
  {
    var m := map k | k in tab && k.root == c :: tab[k];
    var taken := FreeSet(s0.pmm.used) - FreeSet(used);
    forall k | k in m ensures m[k] in taken && own[m[k]] == Tab(k) {
      NewPlace(s0, tab, own, used, n, r, c, k);
    }
    forall f | f in taken ensures f in m.Values {
      TakenTable(s0, tab, own, used, r, c, f);
      var k := own[f].key;
      assert k in m && m[k] == f;
    }
  }

  lemma PlaceOwned(tab: map<Key, Frame>, own: map<Frame, Owner>, n: nat, k: Key)
    requires PlacesOk(tab, own, n)
    ensures k in tab ==> tab[k] in own
  {
  }

  /** A frame the clone took holds a table of it. */
  lemma TakenTable(s0: VM, tab: map<Key, Frame>, own: map<Frame, Owner>, used: seq<bool>, r: Frame, c: Frame, f: Frame)
    requires CloneTabs(s0, tab, own, used, r, c) && OwnersOk(tab, own, used) && OwnersOk(s0.tab, s0.own, s0.pmm.used)
    requires PlacesOk(s0.tab, s0.own, |s0.mem|) && f < |used| && used[f] && !s0.pmm.used[f]
    ensures f in own && own[f].Tab? && own[f].key in tab && own[f].key.root == c && tab[own[f].key] == f
  {
    assert f !in s0.own;
    var k := own[f].key;
    PlaceOwned(s0.tab, s0.own, |s0.mem|, k);
  }

  /** The clone takes as many frames as it has tables. */
  lemma ForkTakes(s0: VM, s1: VM, r: Frame, c: Frame)
    requires Forked(s0, s1, r, c)
    ensures FreePageCount(s1.pmm) == FreePageCount(s0.pmm) - TableCount(s1, c) >= 0
  {
    NewFrames(s0, s1, r, c);
    FreeCounts(s0, s1, r, c);
    hide Forked;
    SameSize(map k | k in s1.tab && k.root == c :: s1.tab[k]);
    Subset(FreeSet(s1.pmm.used), FreeSet(s0.pmm.used));
  }

  lemma FreeCounts(s0: VM, s1: VM, r: Frame, c: Frame)
    requires Forked(s0, s1, r, c)
    ensures FreePageCount(s0.pmm) == |FreeSet(s0.pmm.used)| && FreePageCount(s1.pmm) == |FreeSet(s1.pmm.used)|
  {
    CountFreeIs(s0.pmm.used);
    CountFreeIs(s1.pmm.used);
  }

  lemma Moved(a: set<Key>, b: set<Key>, r: Frame, c: Frame)
    requires forall k {:trigger In(k, r)} :: k in a ==> k.root == c && In(k, r) in b
    requires forall k :: k in b ==> k.root == r
    ensures |a| <= |b|
    ensures (forall k {:trigger In(k, c)} :: k in b ==> In(k, c) in a) <==> |a| == |b|
  {
    var m := map k | k in a :: In(k, r);
    forall k | k in m ensures m[k] in b && In(m[k], c) == k {
    }
    assert m.Keys == a;
    SameSize(m);
    assert m.Values <= b;
    Subset(m.Values, b);
    if forall k {:trigger In(k, c)} :: k in b ==> In(k, c) in a {
      forall k | k in b ensures k in m.Values {
        assert In(k, c) in m && m[In(k, c)] == k;
      }
      assert m.Values == b;
    }
    if |a| == |b| {
      forall k | k in b ensures In(k, c) in a {
        assert k in m.Values;
        var j :| j in m && m[j] == k;
      }
    }
  }

  /** The clone has at most the tables of the parent, and all of them exactly when it has
      as many. */
  lemma CopiedTables(s0: VM, s1: VM, r: Frame, c: Frame)
    requires Forked(s0, s1, r, c)
    ensures TableCount(s1, c) <= TableCount(s0, r)
    ensures AllTables(s0, s1, r, c) <==> TableCount(s1, c) == TableCount(s0, r)
  {
    hide Forked, TableCount, AllTables, In;
    var a, b := TablesOf(s1, c), TablesOf(s0, r);
    ChildKeys(s0, s1, r, c);
    Moved(a, b, r, c);
    CountIs(s0, s1, r, c);
  }

  lemma CountIs(s0: VM, s1: VM, r: Frame, c: Frame)
    ensures TableCount(s1, c) == |TablesOf(s1, c)| && TableCount(s0, r) == |TablesOf(s0, r)|
    ensures AllTables(s0, s1, r, c) <==> forall k {:trigger In(k, c)} :: k in TablesOf(s0, r) ==> In(k, c) in TablesOf(s1, c)
  {
    assert forall k: Key :: In(k, c).root == c;
  }

  lemma ChildKeys(s0: VM, s1: VM, r: Frame, c: Frame)
    requires Forked(s0, s1, r, c)
    ensures forall k {:trigger In(k, r)} :: k in TablesOf(s1, c) ==> k.root == c && In(k, r) in TablesOf(s0, r)
  {
    hide Forked, CloneInv, In;
    ForkedClone(s0, s1, r, c);
    CloneParts(s0, s1, r, c);
    ChildKeysOf(s0, s1.tab, s1.own, s1.pmm.used, r, c);
    hide CloneTabs, CloneFrames, CloneCells, CloneRefs, Good, Trees, PmmOk;
    forall k | k in TablesOf(s1, c) ensures k.root == c && In(k, r) in TablesOf(s0, r) {
    }
  }

  lemma ChildKeysOf(s0: VM, tab: map<Key, Frame>, own: map<Frame, Owner>, used: seq<bool>, r: Frame, c: Frame)
    requires CloneTabs(s0, tab, own, used, r, c)
    ensures forall k {:trigger In(k, r)} :: k in tab && k.root == c ==> In(k, r) in s0.tab && In(k, r).root == r
  {
    forall k | k in tab && k.root == c ensures In(k, r) in s0.tab && In(k, r).root == r {
      assert k !in s0.tab;
    }
  }

  lemma FreeLeft(s0: VM, s1: VM, r: Frame, c: Frame)
    requires Forked(s0, s1, r, c) && FreePageCount(s1.pmm) > 0
    ensures AllTables(s0, s1, r, c)
  {
    ForkedClone(s0, s1, r, c);
    CloneParts(s0, s1, r, c);
    hide CloneInv, HangsBelow, CopiedBelow, PrefixBelow, CloneCells, CloneRefs, CloneFrames, PmmOk;
    forall k | k in s0.tab && k.root == r ensures In(k, c) in s1.tab {
      if !k.L4? {
        assert KeyOk(k);
        assert StrictlyBelow(L4(r), k) && Branch(L4(r), k) < 512;
      }
    }
  }

  /** The clone is complete exactly when at the call there are at least as many free
      frames as the parent has tables. */
  lemma ForkedExactly(s0: VM, s1: VM, r: Frame, c: Frame)
    requires Forked(s0, s1, r, c)
    ensures AllTables(s0, s1, r, c) <==> FreePageCount(s0.pmm) >= TableCount(s0, r)
  {
    hide Forked, AllTables, TableCount, PmmOk;
    ForkTakes(s0, s1, r, c);
    CopiedTables(s0, s1, r, c);
    if FreePageCount(s1.pmm) > 0 { FreeLeft(s0, s1, r, c); }
  }

  /** Then the child has every page of the parent. */
  lemma ForkedComplete(s0: VM, s1: VM, r: Frame, c: Frame, v: VPage)
    requires Forked(s0, s1, r, c) && InUserHalf(v) && FreePageCount(s0.pmm) >= TableCount(s0, r)
    ensures Pte(s1, c, v).present <==> Pte(s0, r, v).present
  {
    hide Forked, FreePageCount, TableCount;
    ForkedExactly(s0, s1, r, c);
    ForkedPte(s0, s1, r, c, r, v);
    if Pte(s0, r, v).present { LeafCopied(s0, s1, r, c, v); }
  }

  /** A leaf table that has its copy has it in full. */
  lemma LeafCopied(s0: VM, s1: VM, r: Frame, c: Frame, v: VPage)
    requires Forked(s0, s1, r, c) && In(TableOf(r, v), c) in s1.tab && Pte(s0, r, v).present
    ensures Pte(s1, c, v).present
  {
    hide CloneInv, HangsBelow, CompleteBelow, PrefixBelow;
    var k := TableOf(r, v);
    assert Below(L4(c), In(k, c)) && In(In(k, c), r) == k;
    assert At(s1, In(k, c), v.d).present;
  }

  // ---- Exactly when the child has every page -----------------------------------------

  /** A leaf table with a user page. */
  ghost predicate HasPage(s: VM, k: Key) { k in s.tab && k.L1? && exists x :: Ix(x) && UserPage(At(s, k, x)) }

  /** The clone comes to the table at j on its way to the last page of r. */
  ghost predicate Wanted(s: VM, r: Frame, j: Key) { exists k :: HasPage(s, k) && k.root == r && !Before(k, j) }

  ghost function WantedTables(s: VM, r: Frame): set<Key> { set j | j in s.tab && j.root == r && Wanted(s, r, j) }

  /** Frames a clone of r needs to have every page: one for each table up to the last leaf
      table with a user page, in the order of the walk. */
  ghost function Needed(s: VM, r: Frame): nat { |WantedTables(s, r)| }

  lemma NeededAtMost(s: VM, r: Frame)
    ensures Needed(s, r) <= TableCount(s, r)
  {
    Subset(WantedTables(s, r), TablesOf(s, r));
  }

  /** The tables of r that have their copy. */
  ghost function CopiedOf(s0: VM, s1: VM, r: Frame, c: Frame): set<Key> { set k | k in s0.tab && k.root == r && In(k, c) in s1.tab }

  /** They are the first ones of the walk. */
  lemma CopiedFirst(s0: VM, s1: VM, r: Frame, c: Frame, j: Key, k: Key)
    requires Forked(s0, s1, r, c) && k in CopiedOf(s0, s1, r, c) && j in s0.tab && j.root == r && !Before(k, j)
    ensures j in CopiedOf(s0, s1, r, c)
  {
    if j != k && !j.L4? {
      assert KeyOk(k);
      Compare(j, k);
      assert !k.L4?;
      assert StrictlyBelow(L4(r), j) && StrictlyBelow(L4(r), k) && Branch(L4(r), k) < 512;
    }
  }

  /** Of two tables of one space the walk comes to one first. */
  lemma Compare(j: Key, k: Key)
    requires j.root == k.root
    ensures j == k || Before(j, k) || Before(k, j)
    ensures !(Before(j, k) && Before(k, j)) && (k.L4? ==> !Before(j, k))
  {
  }

  lemma CopiedCount(s0: VM, s1: VM, r: Frame, c: Frame)
    requires Forked(s0, s1, r, c)
    ensures TableCount(s1, c) == |CopiedOf(s0, s1, r, c)|
  {
    hide Forked, In;
    var a, b := TablesOf(s1, c), CopiedOf(s0, s1, r, c);
    ChildKeys(s0, s1, r, c);
    BackAndForth(s0, s1, r, c);
    Moved(a, b, r, c);
  }

  lemma BackAndForth(s0: VM, s1: VM, r: Frame, c: Frame)
    requires forall k {:trigger In(k, r)} :: k in TablesOf(s1, c) ==> k.root == c && In(k, r) in TablesOf(s0, r)
    ensures forall k {:trigger In(k, r)} :: k in TablesOf(s1, c) ==> In(k, r) in CopiedOf(s0, s1, r, c)
    ensures forall k {:trigger In(k, c)} :: k in CopiedOf(s0, s1, r, c) ==> In(k, c) in TablesOf(s1, c)
  {
    forall k | k in TablesOf(s1, c) ensures In(k, r) in CopiedOf(s0, s1, r, c) {
      assert In(In(k, r), c) == k;
    }
  }

  /** The tables wanted have their copies exactly when there are frames for them. */
  lemma WantedExactly(s0: VM, s1: VM, r: Frame, c: Frame)
    requires Forked(s0, s1, r, c)
    ensures WantedTables(s0, r) <= CopiedOf(s0, s1, r, c) <==> FreePageCount(s0.pmm) >= Needed(s0, r)
  {
    hide Forked, TableCount, WantedTables, CopiedOf, FreePageCount, AllTables;
    var w, d := WantedTables(s0, r), CopiedOf(s0, s1, r, c);
    ForkTakes(s0, s1, r, c);
    CopiedCount(s0, s1, r, c);
    WantedOrCopied(s0, s1, r, c);
    if w <= d { Subset(w, d); } else { Subset(d, w); }
    if FreePageCount(s1.pmm) > 0 {
      FreeLeft(s0, s1, r, c);
      AllCopied(s0, s1, r, c);
    }
  }

  lemma AllCopied(s0: VM, s1: VM, r: Frame, c: Frame)
    requires AllTables(s0, s1, r, c)
    ensures WantedTables(s0, r) <= CopiedOf(s0, s1, r, c)
  {
  }

  /** Both are the first tables of the walk, so one contains the other. */
  lemma WantedOrCopied(s0: VM, s1: VM, r: Frame, c: Frame)
    requires Forked(s0, s1, r, c)
    ensures WantedTables(s0, r) <= CopiedOf(s0, s1, r, c) || CopiedOf(s0, s1, r, c) <= WantedTables(s0, r)
  {
    hide Forked, Before;
    var w, d := WantedTables(s0, r), CopiedOf(s0, s1, r, c);
    if !(w <= d) {
      var j :| j in w && j !in d;
      forall k | k in d ensures k in w {
        Compare(j, k);
        if !Before(k, j) { CopiedFirst(s0, s1, r, c, j, k); }
        WantedFirst(s0, r, k, j);
      }
    }
  }

  lemma WantedFirst(s: VM, r: Frame, k: Key, j: Key)
    requires j in WantedTables(s, r) && k in s.tab && k.root == r && Before(k, j)
    ensures k in WantedTables(s, r)
  {
    var p :| HasPage(s, p) && p.root == r && !Before(p, j);
    assert !Before(p, k);
  }

  /** The child has every page of the parent. */
  ghost predicate AllPages(s0: VM, s1: VM, r: Frame, c: Frame)
  {
    forall v {:trigger Pte(s0, r, v)} :: InUserHalf(v) && UserPage(Pte(s0, r, v)) ==> UserPage(Pte(s1, c, v))
  }

  lemma PagesAreTables(s0: VM, s1: VM, r: Frame, c: Frame)
    requires Forked(s0, s1, r, c)
    ensures AllPages(s0, s1, r, c) <==> WantedTables(s0, r) <= CopiedOf(s0, s1, r, c)
  {
    hide Forked, Before, Pte, CopiedOf, HasPage;
    if AllPages(s0, s1, r, c) {
      forall j | j in WantedTables(s0, r) ensures j in CopiedOf(s0, s1, r, c) {
        var k :| HasPage(s0, k) && k.root == r && !Before(k, j);
        PageTableCopied(s0, s1, r, c, k);
        CopiedFirst(s0, s1, r, c, j, k);
      }
    } else {
      var v :| InUserHalf(v) && UserPage(Pte(s0, r, v)) && !UserPage(Pte(s1, c, v));
      PageWanted(s0, r, v);
      if TableOf(r, v) in CopiedOf(s0, s1, r, c) { PageFollows(s0, s1, r, c, v); }
    }
  }

  lemma PageWanted(s: VM, r: Frame, v: VPage)
    requires InUserHalf(v) && UserPage(Pte(s, r, v))
    ensures TableOf(r, v) in WantedTables(s, r)
  {
    var k := TableOf(r, v);
    assert Ix(v.d) && UserPage(At(s, k, v.d));
    assert HasPage(s, k) && !Before(k, k);
  }

  lemma PageTableCopied(s0: VM, s1: VM, r: Frame, c: Frame, k: Key)
    requires Forked(s0, s1, r, c) && AllPages(s0, s1, r, c) && HasPage(s0, k) && k.root == r
    ensures k in CopiedOf(s0, s1, r, c)
  {
    var x :| Ix(x) && UserPage(At(s0, k, x));
    var v := Leaf(k, x);
    assert KeyOk(k);
    assert TableOf(r, v) == k && UserPage(Pte(s0, r, v)) && InUserHalf(v);
    assert TableOf(c, v) == In(k, c);
  }

  /** A page whose leaf table has its copy is there. */
  lemma PageFollows(s0: VM, s1: VM, r: Frame, c: Frame, v: VPage)
    requires Forked(s0, s1, r, c) && InUserHalf(v) && UserPage(Pte(s0, r, v)) && TableOf(r, v) in CopiedOf(s0, s1, r, c)
    ensures UserPage(Pte(s1, c, v))
  {
    hide Forked;
    ForkedPte(s0, s1, r, c, r, v);
    LeafCopied(s0, s1, r, c, v);
  }

  /** The child has every page of the parent exactly when at the call there are as many
      free frames as tables up to the last leaf table with a user page. */
  lemma PagesExactly(s0: VM, s1: VM, r: Frame, c: Frame)
    requires Forked(s0, s1, r, c)
    ensures AllPages(s0, s1, r, c) <==> FreePageCount(s0.pmm) >= Needed(s0, r)
  {
    hide Forked, AllPages, WantedTables, CopiedOf, Needed, FreePageCount;
    PagesAreTables(s0, s1, r, c);
    WantedExactly(s0, s1, r, c);
  }

  /** With fewer than four free frames the child gets no page at all. */
  lemma FewFrames(s0: VM, s1: VM, r: Frame, c: Frame, v: VPage)
    requires Forked(s0, s1, r, c) && FreePageCount(s0.pmm) < 4
    ensures !Pte(s1, c, v).present
  {
    ForkTakes(s0, s1, r, c);
    if Pte(s1, c, v).present {
      FourTables(s0, s1, r, c, v);
    }
  }

  lemma FourTables(s0: VM, s1: VM, r: Frame, c: Frame, v: VPage)
    requires Forked(s0, s1, r, c) && Pte(s1, c, v).present
    ensures TableCount(s1, c) >= 4
  {
    hide Forked, Trees, Pte;
    ForkedTrees(s0, s1, r, c);
    PathTables(s1, c, v);
    var four := {TableOf(c, v), L2(c, v.a, v.b), L3(c, v.a), L4(c)};
    assert four <= TablesOf(s1, c);
    Subset(four, TablesOf(s1, c));
  }

  /** A page hangs in four tables. */
  lemma PathTables(s: VM, r: Frame, v: VPage)
    requires Trees(s) && Pte(s, r, v).present
    ensures TableOf(r, v) in s.tab && L2(r, v.a, v.b) in s.tab && L3(r, v.a) in s.tab && L4(r) in s.tab
  {
    assert Linked(s, TableOf(r, v)) && Linked(s, L2(r, v.a, v.b)) && Linked(s, L3(r, v.a));
  }
}
