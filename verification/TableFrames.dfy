/**
 What vmm_map_page of mm/vmm.c costs and when it fails, seen from the flat address
 space: the frames still free and the tables that exist below the PML4.
 */
module TableFrames {
  /** A table by level (1: PT, 2: PD, 3: PDPT) and the pages it covers. */
  datatype Node = Node(level: nat, index: nat)

  datatype Pool = Pool(frames: nat, tables: set<Node>)

  function NodeOf(page: nat, level: nat): Node
    requires 1 <= level <= 3
  {
    Node(level, if level == 1 then page / 512 else if level == 2 then page / 0x4_0000 else page / 0x800_0000)
  }

  /** Pool afterwards, and whether the leaf table is there. */
  datatype Walked = Walked(pool: Pool, ok: bool)

  /** The calls of vmm_get_next_level from the given level down: a missing table takes
      a frame, and without one the walk stops, leaving the tables made so far. */
  function Walk(p: Pool, page: nat, level: nat): Walked
    requires level <= 3
    decreases level
  {
    if level == 0 then Walked(p, true)
    else if NodeOf(page, level) in p.tables then Walk(p, page, level - 1)
    else if p.frames == 0 then Walked(p, false)
    else Walk(Pool(p.frames - 1, p.tables + {NodeOf(page, level)}), page, level - 1)
  }

  /** Tables the page still needs, from the given level down. */
  function Missing(tables: set<Node>, page: nat, level: nat): (n: nat)
    requires level <= 3
    ensures n <= level
  {
    if level == 0 then 0
    else (if NodeOf(page, level) in tables then 0 else 1) + Missing(tables, page, level - 1)
  }

  function NodesOf(page: nat, level: nat): set<Node>
    requires level <= 3
  {
    if level == 0 then {} else {NodeOf(page, level)} + NodesOf(page, level - 1)
  }

  lemma NodeLevel(page: nat, level: nat)
    requires 1 <= level <= 3
    ensures NodeOf(page, level).level == level
  {
  }

  /** Nodes of other levels do not matter. */
  lemma {:induction false} MissingFrame(a: set<Node>, b: set<Node>, page: nat, level: nat)
    requires level <= 3 && forall n: Node :: n.level <= level ==> (n in a <==> n in b)
    ensures Missing(a, page, level) == Missing(b, page, level)
  {
    if level > 0 { MissingFrame(a, b, page, level - 1); }
  }

  /** vmm_map_page succeeds exactly when the frames cover the missing tables, and then
      takes just those; otherwise it has used up every frame. */
  lemma {:induction false} WalkIs(p: Pool, page: nat, level: nat)
    requires level <= 3
    decreases level
    ensures var w := Walk(p, page, level); var m := Missing(p.tables, page, level);
            && (w.ok <==> p.frames >= m)
            && (w.ok ==> w.pool == Pool(p.frames - m, p.tables + NodesOf(page, level)))
            && (!w.ok ==> w.pool.frames == 0)
            && p.tables <= w.pool.tables && w.pool.frames <= p.frames
  {
    hide NodeOf;
    if level > 0 {
      var n := NodeOf(page, level);
      if n in p.tables {
        WalkIs(p, page, level - 1);
        assert p.tables + NodesOf(page, level) == p.tables + NodesOf(page, level - 1);
      } else if p.frames > 0 {
        var q := Pool(p.frames - 1, p.tables + {n});
        WalkIs(q, page, level - 1);
        NodeLevel(page, level);
        MissingFrame(p.tables, q.tables, page, level - 1);
        assert p.tables + NodesOf(page, level) == q.tables + NodesOf(page, level - 1);
      }
    }
  }

  /** vmm_map_page of one page: its tables, then the entry. */
  function MapTables(p: Pool, page: nat): Walked { Walk(p, page, 3) }

  function Needs(tables: set<Node>, page: nat): (n: nat) ensures n <= 3 { Missing(tables, page, 3) }

  /** pmm_alloc_page for the page itself, then vmm_map_page. */
  function PageIn(p: Pool, page: nat): Walked
    requires p.frames > 0
  {
    MapTables(p.(frames := p.frames - 1), page)
  }

  /** Frames that mapping these pages one after the other takes. */
  function Cost(tables: set<Node>, pages: seq<nat>): nat
    decreases |pages|
  {
    if pages == [] then 0
    else 1 + Needs(tables, pages[0]) + Cost(tables + NodesOf(pages[0], 3), pages[1..])
  }

  lemma PageInIs(p: Pool, page: nat)
    requires p.frames > 0
    ensures var w := PageIn(p, page);
            && (w.ok <==> p.frames >= 1 + Needs(p.tables, page))
            && (w.ok ==> w.pool == Pool(p.frames - 1 - Needs(p.tables, page), p.tables + NodesOf(page, 3)))
            && (!w.ok ==> w.pool.frames == 0)
            && p.tables <= w.pool.tables && w.pool.frames < p.frames
  {
    WalkIs(p.(frames := p.frames - 1), page, 3);
  }

  /** The tables there are once these pages are mapped. */
  function TablesAfter(tables: set<Node>, pages: seq<nat>): set<Node>
    decreases |pages|
  {
    if pages == [] then tables else TablesAfter(tables + NodesOf(pages[0], 3), pages[1..])
  }

  lemma {:induction false} CostLast(tables: set<Node>, pages: seq<nat>, page: nat)
    ensures Cost(tables, pages + [page]) == Cost(tables, pages) + 1 + Needs(TablesAfter(tables, pages), page)
    ensures TablesAfter(tables, pages + [page]) == TablesAfter(tables, pages) + NodesOf(page, 3)
    decreases |pages|
  {
    hide Needs, NodesOf;
    if pages == [] {
      assert [] + [page] == [page];
      assert Cost(tables + NodesOf(page, 3), [page][1..]) == 0;
    } else {
      assert (pages + [page])[1..] == pages[1..] + [page];
      CostLast(tables + NodesOf(pages[0], 3), pages[1..], page);
    }
  }

  /** A page whose tables exist needs none. */
  lemma NoNeeds(tables: set<Node>, page: nat)
    ensures NodesOf(page, 3) <= tables ==> Needs(tables, page) == 0
    ensures Needs(tables, page) == 0 ==> NodesOf(page, 3) <= tables
  {
    Unrolled(tables, page);
  }

  lemma Unrolled(tables: set<Node>, page: nat)
    ensures NodesOf(page, 3) == {NodeOf(page, 1), NodeOf(page, 2), NodeOf(page, 3)}
    ensures Needs(tables, page) == (if NodeOf(page, 1) in tables then 0 else 1) + (if NodeOf(page, 2) in tables then 0 else 1)
                                   + (if NodeOf(page, 3) in tables then 0 else 1)
  {
    assert NodesOf(page, 0) == {} && NodesOf(page, 1) == {NodeOf(page, 1)};
    assert NodesOf(page, 2) == {NodeOf(page, 1), NodeOf(page, 2)};
    assert Missing(tables, page, 0) == 0 && Missing(tables, page, 1) == (if NodeOf(page, 1) in tables then 0 else 1);
    assert Missing(tables, page, 2) == (if NodeOf(page, 2) in tables then 0 else 1) + Missing(tables, page, 1);
  }
}
