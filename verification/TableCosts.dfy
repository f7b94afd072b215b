/**
 The table frames that TableFrames counts are those of the page tables: what a page
 still needs in a space is what the flat view of that space says.
 */
module TableCosts {
  import opened Arith
  import opened PageTables
  import opened TableFrames

  /** The page number of a user page. */
  function PageIndex(v: VPage): nat { Digits(v.a, v.b, v.c, v.d) }

  function NodeAt(k: Key): Node
  {
    match k
    case L4(_) => Node(4, 0)
    case L3(_, a) => Node(3, a)
    case L2(_, a, b) => Node(2, a * 512 + b)
    case L1(_, a, b, c) => Node(1, (a * 512 + b) * 512 + c)
  }

  /** The tables of root r below its PML4. */
  ghost function Nodes(tab: map<Key, Frame>, r: Frame): set<Node>
  {
    set k | k in tab && k.root == r && !k.L4? :: NodeAt(k)
  }

  lemma NodesOfPage(v: VPage, r: Frame)
    requires InUserHalf(v)
    ensures NodeOf(PageIndex(v), 3) == NodeAt(L3(r, v.a))
    ensures NodeOf(PageIndex(v), 2) == NodeAt(L2(r, v.a, v.b))
    ensures NodeOf(PageIndex(v), 1) == NodeAt(TableOf(r, v))
  {
    var m, n := (v.a * 512 + v.b) * 512 + v.c, v.a * 512 + v.b;
    DivModUnique(PageIndex(v), 512, m, v.d);
    DivModUnique(m, 512, n, v.c);
    DivModUnique(n, 512, v.a, v.b);
    DivDiv(PageIndex(v), 512, 512);
    DivDiv(PageIndex(v), 0x4_0000, 512);
  }

  lemma NodeInjective(k: Key, j: Key)
    requires KeyOk(k) && KeyOk(j) && k.root == j.root && NodeAt(k) == NodeAt(j)
    ensures k == j
  {
    match k
    case L4(_) =>
    case L3(_, a) =>
    case L2(_, a, b) => LastDigit(a, b, j.a, j.b);
    case L1(_, a, b, c) =>
      LastDigit(a * 512 + b, c, j.a * 512 + j.b, j.c);
      LastDigit(a, b, j.a, j.b);
  }

  lemma InNodes(tab: map<Key, Frame>, k: Key)
    requires KeyOk(k) && !k.L4? && forall j :: j in tab ==> KeyOk(j)
    ensures NodeAt(k) in Nodes(tab, k.root) <==> k in tab
  {
    if NodeAt(k) in Nodes(tab, k.root) {
      var j :| j in tab && j.root == k.root && !j.L4? && NodeAt(j) == NodeAt(k);
      NodeInjective(k, j);
    }
  }

  /** Both views agree on the tables a page still needs. */
  lemma MissingIsNeeds(s: VM, r: Frame, v: VPage)
    requires Good(s) && InUserHalf(v)
    ensures MissingTables(s.tab, r, v) == Needs(Nodes(s.tab, r), PageIndex(v))
  {
    assert forall j :: j in s.tab ==> KeyOk(j);
    hide Good, Digits, Needs, NodeOf, NodeAt, Nodes;
    NodesOfPage(v, r);
    InNodes(s.tab, L3(r, v.a));
    InNodes(s.tab, L2(r, v.a, v.b));
    InNodes(s.tab, TableOf(r, v));
    Unrolled(Nodes(s.tab, r), PageIndex(v));
  }
}
