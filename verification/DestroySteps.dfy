/**
 What holds at every moment inside vmm_destroy_address_space.  Only the
 allocator changes: s0 is the state the teardown started from, p the allocator
 now, gone the tables given back so far and seen the pages whose entry was
 dropped so far.
 */
module DestroySteps {
  import opened PmmSpec
  import opened PageTables
  import opened CloneSteps

  /** The reference count of frame f and whether it is allocated, part way. */
  ghost predicate FrameNow(s0: VM, p: Pmm, r: Frame, gone: set<Key>, seen: set<VPage>, f: Frame)
    requires |p.rc| == |s0.pmm.rc| == MAX_PAGES && f < |p.used| == |s0.pmm.used|
  {
    var rc0 := if f < MAX_PAGES then s0.pmm.rc[f] else 0;
    var rc := if f < MAX_PAGES then p.rc[f] else 0;
    if f in s0.own && s0.own[f].Tab? && s0.own[f].key in gone then
      !p.used[f] && rc == 0
    else if f in s0.own && s0.own[f].Pg? && s0.own[f].v in seen && Maps(s0, r, s0.own[f].v, f) && f < MAX_PAGES then
      rc + 1 == rc0 && (p.used[f] <==> rc > 0)
    else
      rc == rc0 && p.used[f] == s0.pmm.used[f]
  }

  ghost predicate Tearing(s0: VM, p: Pmm, r: Frame, gone: set<Key>, seen: set<VPage>)
  {
    (
      && Inv(s0) && PmmOk(p) && p.usablePages == s0.pmm.usablePages
      && |p.used| == |s0.pmm.used|
      && (forall f {:trigger FrameNow(s0, p, r, gone, seen, f)} :: 0 <= f < |p.used| ==> FrameNow(s0, p, r, gone, seen, f))
      && (forall f :: |p.used| <= f < MAX_PAGES ==> p.rc[f] == s0.pmm.rc[f])
    ) == true
  }

  lemma TearingStart(s0: VM, r: Frame)
    requires Inv(s0)
    ensures Tearing(s0, s0.pmm, r, {}, {})
  {
  }

  /** A user page that is mapped has at least the reference of its mapper. */
  lemma MappedHasRef(s0: VM, r: Frame, v: VPage, f: Frame)
    requires Inv(s0) && InUserHalf(v) && Maps(s0, r, v, f)
    ensures f in s0.own && s0.own[f] == Pg(v) && 0 < f < |s0.mem| && s0.pmm.used[f]
    ensures f < MAX_PAGES ==> s0.pmm.rc[f] >= 1 && (s0.pmm.rc[f] == 1 <==> Mappers(s0, v, f) == {r})
  {
    assert LeafOk(s0, TableOf(r, v), v.d);
    assert FrameOk(s0, f);
    MappersIff(s0, v, f, r);
    var m := Mappers(s0, v, f);
    assert m == {r} + (m - {r});
    assert |m| == 1 + |m - {r}|;
    if |m| == 1 { assert m - {r} == {}; }
  }

  lemma InvOf(s0: VM, p: Pmm, r: Frame, gone: set<Key>, seen: set<VPage>)
    requires Tearing(s0, p, r, gone, seen)
    ensures Inv(s0) && |s0.pmm.rc| == MAX_PAGES
  {
  }

  /** The entry of page v is dropped. */
  lemma DropPage(s0: VM, p: Pmm, r: Frame, gone: set<Key>, seen: set<VPage>, v: VPage)
    requires Tearing(s0, p, r, gone, seen) && InUserHalf(v) && v !in seen
    ensures var e := Pte(s0, r, v);
            Tearing(s0, if UserPage(e) then Unref(p, e.pfn) else p, r, gone, seen + {v})
  {
    InvOf(s0, p, r, gone, seen);
    hide Inv;
    var e := Pte(s0, r, v);
    if UserPage(e) {
      MappedHasRef(s0, r, v, e.pfn);
      UnrefOk(p, e.pfn);
      var q := Unref(p, e.pfn);
      assert FrameNow(s0, p, r, gone, seen, e.pfn);
      forall f | 0 <= f < |q.used| ensures FrameNow(s0, q, r, gone, seen + {v}, f) {
        assert FrameNow(s0, p, r, gone, seen, f);
      }
    } else {
      forall f | 0 <= f < |p.used| ensures FrameNow(s0, p, r, gone, seen + {v}, f) {
        assert FrameNow(s0, p, r, gone, seen, f);
      }
    }
  }

  /** The table at k is given back. */
  lemma DropTable(s0: VM, p: Pmm, r: Frame, gone: set<Key>, seen: set<VPage>, k: Key)
    requires Tearing(s0, p, r, gone, seen) && k in s0.tab && k !in gone
    ensures Tearing(s0, Free(p, s0.tab[k]), r, gone + {k}, seen)
  {
    var t := s0.tab[k];
    FreeOk(p, t);
    var q := Free(p, t);
    assert s0.own[t] == Tab(k);
    assert FrameNow(s0, p, r, gone, seen, t);
    forall f | 0 <= f < |q.used| ensures FrameNow(s0, q, r, gone + {k}, seen, f) {
      assert FrameNow(s0, p, r, gone, seen, f);
      if f in s0.own && s0.own[f].Tab? && s0.own[f].key == k { assert f == t; }
    }
  }

  // ---- The part of the teardown under one table --------------------------------

  /** j is reached through one of the first i entries of the inner table at k. */
  ghost predicate Under(s0: VM, k: Key, i: nat, j: Key)
  {
    j in s0.tab && StrictlyBelow(k, j) && Branch(k, j) < i
  }

  /** v is reached through one of the first i entries of the table at k. */
  ghost predicate PageUnder(s0: VM, k: Key, i: nat, v: VPage)
  {
    && InUserHalf(v)
    && if k.L1? then TableOf(k.root, v) == k && v.d < i else Under(s0, k, i, TableOf(k.root, v))
  }

  /** The first i entries of the table at k are done: from (gone, seen) to (gone', seen'). */
  ghost predicate Done(s0: VM, k: Key, i: nat, gone: set<Key>, seen: set<VPage>, gone': set<Key>, seen': set<VPage>)
  {
    && (forall j {:trigger j in gone'} :: j in gone' <==> j in gone || Under(s0, k, i, j))
    && (forall v {:trigger v in seen'} :: v in seen' <==> v in seen || PageUnder(s0, k, i, v))
  }

  /** Nothing under k was done before. */
  ghost predicate Untouched(k: Key, gone: set<Key>, seen: set<VPage>)
  {
    && (forall j :: j in gone ==> !StrictlyBelow(k, j))
    && (forall v :: v in seen ==> !Below(k, TableOf(k.root, v)))
  }

  lemma DoneNothing(s0: VM, k: Key, gone: set<Key>, seen: set<VPage>)
    ensures Done(s0, k, 0, gone, seen, gone, seen)
  {
  }

  lemma DoneAbsent(s0: VM, k: Key, i: nat, gone: set<Key>, seen: set<VPage>, gone': set<Key>, seen': set<VPage>)
    requires Trees(s0) && !k.L1? && !At(s0, k, i).present && Done(s0, k, i, gone, seen, gone', seen')
    ensures Done(s0, k, i + 1, gone, seen, gone', seen')
  {
    NothingBelow(s0, k, i);
    hide Trees;
    forall v ensures PageUnder(s0, k, i + 1, v) <==> PageUnder(s0, k, i, v) {
      assert Under(s0, k, i + 1, TableOf(k.root, v)) <==> Under(s0, k, i, TableOf(k.root, v));
    }
  }

  lemma DoneEntry(s0: VM, k: Key, i: nat, gone: set<Key>, seen: set<VPage>, gone': set<Key>, seen': set<VPage>)
    requires k.L1? && KeyOk(k) && Ix(i) && Done(s0, k, i, gone, seen, gone', seen')
    ensures Done(s0, k, i + 1, gone, seen, gone', seen' + {Leaf(k, i)})
  {
  }

  /** The child under entry i was emptied, from (g1, s1) to (g2, s2), and given back. */
  lemma DoneChild(s0: VM, k: Key, i: nat, gone: set<Key>, seen: set<VPage>, g1: set<Key>, s1: set<VPage>,
                  g2: set<Key>, s2: set<VPage>)
    requires !k.L1? && Child(k, i) in s0.tab
    requires PlacesOk(s0.tab, s0.own, |s0.mem|)
    requires Done(s0, k, i, gone, seen, g1, s1) && Done(s0, Child(k, i), 512, g1, s1, g2, s2)
    ensures Done(s0, k, i + 1, gone, seen, g2 + {Child(k, i)}, s2)
  {
    var c := Child(k, i);
    forall j ensures Under(s0, k, i + 1, j) <==> Under(s0, k, i, j) || j == c || (Under(s0, c, 512, j)) {
      BelowChild(k, i, j);
      if j in s0.tab && StrictlyBelow(c, j) { assert KeyOk(j) && Branch(c, j) < 512; }
    }
    forall v ensures PageUnder(s0, k, i + 1, v) <==> PageUnder(s0, k, i, v) || PageUnder(s0, c, 512, v) {
      var j := TableOf(k.root, v);
      BelowChild(k, i, j);
      assert c.L1? && j == c ==> KeyOk(j);
    }
  }

  lemma ChildUntouched(s0: VM, k: Key, i: nat, gone: set<Key>, seen: set<VPage>, g1: set<Key>, s1: set<VPage>)
    requires !k.L1? && Untouched(k, gone, seen) && Done(s0, k, i, gone, seen, g1, s1)
    ensures Untouched(Child(k, i), g1, s1) && Child(k, i) !in g1
  {
    var c := Child(k, i);
    forall j | j in g1 ensures !Below(c, j) {
      BelowChild(k, i, j);
    }
    forall v | v in s1 ensures !Below(c, TableOf(c.root, v)) {
      BelowChild(k, i, TableOf(k.root, v));
    }
  }

  /** After the child was emptied, the child itself is still there. */
  lemma ChildLeft(s0: VM, k: Key, i: nat, g1: set<Key>, s1: set<VPage>, g2: set<Key>, s2: set<VPage>)
    requires !k.L1? && Child(k, i) !in g1
    requires Done(s0, Child(k, i), 512, g1, s1, g2, s2)
    ensures Child(k, i) !in g2
  {
  }

  lemma TearingFacts(s0: VM, p: Pmm, r: Frame, gone: set<Key>, seen: set<VPage>, k: Key)
    requires Tearing(s0, p, r, gone, seen) && k in s0.tab
    ensures Trees(s0) && KeyOk(k) && 0 < s0.tab[k] < |s0.mem| && PlacesOk(s0.tab, s0.own, |s0.mem|)
    ensures k.L4? ==> s0.tab[k] == k.root
    ensures |p.rc| == MAX_PAGES
  {
  }

  /** Entry i of the table at k, as the teardown finds it. */
  lemma TearingEntry(s0: VM, p: Pmm, r: Frame, gone: set<Key>, seen: set<VPage>, k: Key, i: nat)
    requires Tearing(s0, p, r, gone, seen) && k in s0.tab && 0 <= i < Span(k)
    ensures |p.rc| == MAX_PAGES && s0.tab[k] < |s0.mem| && At(s0, k, i) == s0.mem[s0.tab[k]][i]
    ensures k.L1? ==> Pte(s0, k.root, Leaf(k, i)) == At(s0, k, i) && InUserHalf(Leaf(k, i))
    ensures !k.L1? && At(s0, k, i).present ==>
              At(s0, k, i).user && Child(k, i) in s0.tab && s0.tab[Child(k, i)] == At(s0, k, i).pfn
  {
    assert KeyOk(k);
    if !k.L1? { assert InnerOk(s0, k, i); }
  }

  lemma EntryUnseen(s0: VM, k: Key, i: nat, gone: set<Key>, seen: set<VPage>, gone': set<Key>, seen': set<VPage>)
    requires k.L1? && Untouched(k, gone, seen) && Done(s0, k, i, gone, seen, gone', seen')
    ensures Leaf(k, i) !in seen'
  {
    assert TableOf(k.root, Leaf(k, i)) == k;
  }

  lemma DoneAll(s0: VM, k: Key, i: nat, gone: set<Key>, seen: set<VPage>, gone': set<Key>, seen': set<VPage>)
    requires PlacesOk(s0.tab, s0.own, |s0.mem|) && i == Span(k) && Done(s0, k, i, gone, seen, gone', seen')
    ensures Done(s0, k, 512, gone, seen, gone', seen')
  {
    forall j ensures Under(s0, k, 512, j) <==> Under(s0, k, i, j) {
      assert j in s0.tab ==> KeyOk(j);
    }
  }

  lemma RootLeft(s0: VM, r: Frame, gone: set<Key>, seen: set<VPage>)
    requires Done(s0, L4(r), 512, {}, {}, gone, seen)
    ensures L4(r) !in gone
  {
  }
}
