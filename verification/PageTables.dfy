/**
 Physical memory, page-table entries and the 4-level tables of mm/vmm.c as
 values.  Memory is one untyped sequence of frames: the same words hold
 page-table entries and user data, so nothing but the invariants below keeps
 a user store away from a page table.
 */
module PageTables {
  import opened Arith
  import opened Options
  import opened PmmSpec

  type Frame = nat

  /** A 64-bit word split into the bit fields the kernel reads: bits 12-51,
      0, 1, 2 and the remaining 21 bits. */
  datatype Word = Word(pfn: Frame, present: bool, writable: bool, user: bool, rest: nat)

  const ZERO := Word(0, false, false, false, 0)

  type Page = s: seq<Word> | |s| == 512 witness seq(512, _ => ZERO)

  function ZeroPage(): (z: Page)
    ensures forall x :: Ix(x) ==> z[x] == ZERO
  {
    seq(512, _ => ZERO)
  }

  type Ram = seq<Page>

  /** The entry vmm_get_next_level and the clone install for a table: present,
      writable and user. */
  function TableEntry(f: Frame): Word { Word(f, true, true, true, 0) }

  /** Present, user and backed by frame f. */
  predicate UserPage(e: Word) { e.present && e.user }

  /** An index into one table of a user-half path. */
  predicate Ix(x: int) { 0 <= x < 512 }

  /** The page-table indices of a virtual page in the user half. */
  datatype VPage = VPage(a: nat, b: nat, c: nat, d: nat)

  predicate InUserHalf(v: VPage) { v.a < 256 && Ix(v.b) && Ix(v.c) && Ix(v.d) }

  /** PML4_INDEX, PDPT_INDEX, PD_INDEX and PT_INDEX of an address. */
  function PageOf(virt: nat): VPage
  {
    VPage(virt / 0x80_0000_0000 % 512, virt / 0x4000_0000 % 512, virt / 0x20_0000 % 512, virt / 4096 % 512)
  }

  /** The 48-bit page number. */
  function PageNumber(virt: nat): nat { virt / 4096 % 0x10_0000_0000 }

  /** Addresses have the same indices exactly when they lie in the same 48-bit page. */
  lemma PageOfInjective(a: nat, b: nat)
    ensures PageOf(a) == PageOf(b) <==> PageNumber(a) == PageNumber(b)
  {
    PageDigits(a);
    PageDigits(b);
    var v, w := PageOf(a), PageOf(b);
    DigitsInjective(v.a, v.b, v.c, v.d, w.a, w.b, w.c, w.d);
  }

  function Digits(a: nat, b: nat, c: nat, d: nat): nat { ((a * 512 + b) * 512 + c) * 512 + d }

  lemma DigitsInjective(a: nat, b: nat, c: nat, d: nat, a': nat, b': nat, c': nat, d': nat)
    requires Ix(a) && Ix(b) && Ix(c) && Ix(d) && Ix(a') && Ix(b') && Ix(c') && Ix(d')
    ensures Digits(a, b, c, d) == Digits(a', b', c', d') <==> a == a' && b == b' && c == c' && d == d'
  {
    var m, m' := (a * 512 + b) * 512 + c, (a' * 512 + b') * 512 + c';
    var n, n' := a * 512 + b, a' * 512 + b';
    if Digits(a, b, c, d) == Digits(a', b', c', d') {
      LastDigit(m, d, m', d');
      LastDigit(n, c, n', c');
      LastDigit(a, b, a', b');
    }
  }

  lemma LastDigit(m: nat, d: nat, m': nat, d': nat)
    requires m * 512 + d == m' * 512 + d' && Ix(d) && Ix(d')
    ensures m == m' && d == d'
  {
  }

  lemma PageDigits(a: nat)
    ensures var v := PageOf(a); PageNumber(a) == Digits(v.a, v.b, v.c, v.d) && Ix(v.a) && Ix(v.b) && Ix(v.c) && Ix(v.d)
  {
    DivDiv(a, 4096, 512);
    DivDiv(a, 0x20_0000, 512);
    DivDiv(a, 0x4000_0000, 512);
    var n := a / 4096;
    var n1, n2, n3 := n / 512, n / 512 / 512, n / 512 / 512 / 512;
    FourDigits(n, n1, n2, n3, n3 / 512, n % 512, n1 % 512, n2 % 512, n3 % 512);
  }

  lemma FourDigits(n: nat, n1: nat, n2: nat, n3: nat, n4: nat, d: nat, c: nat, b: nat, a: nat)
    requires n == n1 * 512 + d && n1 == n2 * 512 + c && n2 == n3 * 512 + b && n3 == n4 * 512 + a
    requires Ix(a) && Ix(b) && Ix(c) && Ix(d)
    ensures n % 0x10_0000_0000 == Digits(a, b, c, d)
  {
    DivModUnique(n, 0x10_0000_0000, n4, Digits(a, b, c, d));
  }

  /** The first address of a page has the indices of the page. */
  lemma PageBase(virt: nat)
    ensures virt % 4096 <= virt && PageOf(virt - virt % 4096) == PageOf(virt) && (virt - virt % 4096) % 4096 == 0
  {
    var base := virt - virt % 4096;
    DivMod(virt, 4096);
    DivModUnique(base, 4096, virt / 4096, 0);
    DivDiv(virt, 4096, 512);
    DivDiv(virt, 0x20_0000, 512);
    DivDiv(virt, 0x4000_0000, 512);
    DivDiv(base, 4096, 512);
    DivDiv(base, 0x20_0000, 512);
    DivDiv(base, 0x4000_0000, 512);
  }

  /** The place of a table in an address space: the PML4 of root r, the PDPT
      under PML4 entry a, the PD under PDPT entry b, the PT under PD entry c. */
  datatype Key =
    | L4(root: Frame)
    | L3(root: Frame, a: nat)
    | L2(root: Frame, a: nat, b: nat)
    | L1(root: Frame, a: nat, b: nat, c: nat)

  function Child(k: Key, x: nat): Key
    requires !k.L1?
  {
    match k
    case L4(r) => L3(r, x)
    case L3(r, a) => L2(r, a, x)
    case L2(r, a, b) => L1(r, a, b, x)
  }

  function Parent(k: Key): Key
    requires !k.L4?
  {
    match k
    case L3(r, a) => L4(r)
    case L2(r, a, b) => L3(r, a)
    case L1(r, a, b, c) => L2(r, a, b)
  }

  /** Index of the entry of Parent(k) that points to k. */
  function Slot(k: Key): nat
    requires !k.L4?
  {
    match k
    case L3(r, a) => a
    case L2(r, a, b) => b
    case L1(r, a, b, c) => c
  }

  function Leaf(k: Key, x: nat): VPage
    requires k.L1?
  {
    VPage(k.a, k.b, k.c, x)
  }

  function TableOf(r: Frame, v: VPage): Key { L1(r, v.a, v.b, v.c) }

  /** k moved to the address space of root r. */
  function In(k: Key, r: Frame): Key
  {
    match k
    case L4(_) => L4(r)
    case L3(_, a) => L3(r, a)
    case L2(_, a, b) => L2(r, a, b)
    case L1(_, a, b, c) => L1(r, a, b, c)
  }

  /** Number of entries that belong to the user half of a table. */
  function Span(k: Key): nat { if k.L4? then 256 else 512 }

  predicate KeyOk(k: Key)
  {
    match k
    case L4(r) => true
    case L3(r, a) => a < 256
    case L2(r, a, b) => a < 256 && Ix(b)
    case L1(r, a, b, c) => a < 256 && Ix(b) && Ix(c)
  }

  /** j is k or a table somewhere under k. */
  predicate Below(k: Key, j: Key)
  {
    && j.root == k.root
    && match k
       case L4(r) => true
       case L3(r, a) => !j.L4? && j.a == a
       case L2(r, a, b) => !j.L4? && !j.L3? && j.a == a && j.b == b
       case L1(r, a, b, c) => j == k
  }

  predicate StrictlyBelow(k: Key, j: Key) { Below(k, j) && j != k }

  /** What a frame is used for: a table at a key, or user memory behind one
      virtual page (copy-on-write shares a frame only at the same page). */
  datatype Owner = Tab(key: Key) | Pg(v: VPage)

  /** RAM and the frame allocator, with the ghost bookkeeping: where every table
      lives and what every frame that the address spaces use is for. */
  datatype VM = VM(mem: Ram, pmm: Pmm, tab: map<Key, Frame>, own: map<Frame, Owner>)

  // ---- Translation, read from memory alone -------------------------------

  /** One step of vmm_get_next_level without create. */
  function Next(mem: Ram, t: Option<Frame>, x: nat): Option<Frame>
    requires Ix(x)
  {
    if t.Some? && t.value < |mem| && mem[t.value][x].present
    then Some(mem[t.value][x].pfn) else None
  }

  function WalkToPt(mem: Ram, root: Frame, v: VPage): Option<Frame>
    requires InUserHalf(v)
  {
    Next(mem, Next(mem, Next(mem, Some(root), v.a), v.b), v.c)
  }

  /** The entry a hardware walk from root ends at; ZERO when it stops early. */
  function Translate(mem: Ram, root: Frame, v: VPage): Word
    requires InUserHalf(v)
  {
    var t := WalkToPt(mem, root, v);
    if t.Some? && t.value < |mem| then mem[t.value][v.d] else ZERO
  }

  // ---- Well-formedness -----------------------------------------------------

  /** Entry x of the table at k, ZERO when there is no such table. */
  ghost function At(s: VM, k: Key, x: nat): Word
  {
    if k in s.tab && s.tab[k] < |s.mem| && Ix(x) then s.mem[s.tab[k]][x] else ZERO
  }

  /** An entry of an inner table allows everything and leads to the table that belongs there. */
  ghost predicate InnerOk(s: VM, k: Key, x: nat)
    requires !k.L1?
  {
    var e := At(s, k, x);
    e.present ==> e.user && e.writable && Child(k, x) in s.tab && e.pfn == s.tab[Child(k, x)]
  }

  /** A user entry of a leaf table points to a frame kept for that very page. */
  ghost predicate LeafOk(s: VM, k: Key, x: nat)
    requires k.L1?
  {
    var e := At(s, k, x);
    UserPage(e) ==> e.pfn in s.own && s.own[e.pfn] == Pg(Leaf(k, x))
  }

  /** Every table has a frame of its own. */
  ghost predicate PlacesOk(tab: map<Key, Frame>, own: map<Frame, Owner>, n: nat)
  {
    forall k :: k in tab ==>
      KeyOk(k) && 0 < tab[k] < n && tab[k] in own && own[tab[k]] == Tab(k)
  }

  ghost predicate EntriesOk(s: VM)
  {
    && (forall k: Key, x {:trigger InnerOk(s, k, x)} :: !k.L1? && 0 <= x < Span(k) ==> InnerOk(s, k, x))
    && (forall k: Key, x {:trigger LeafOk(s, k, x)} :: k.L1? && Ix(x) ==> LeafOk(s, k, x))
  }

  /** Every frame in use by an address space is allocated. */
  ghost predicate OwnersOk(tab: map<Key, Frame>, own: map<Frame, Owner>, used: seq<bool>)
  {
    (
      && (forall f :: f in own ==> 0 < f < |used| && used[f])
      && (forall f {:trigger own[f].key} :: f in own && own[f].Tab? ==> own[f].key in tab && tab[own[f].key] == f)
      && (forall f :: f in own && own[f].Pg? ==> InUserHalf(own[f].v))
    ) == true
  }

  ghost predicate Good(s: VM)
  {
    (
      && |s.mem| == |s.pmm.used| && PmmOk(s.pmm)
      && PlacesOk(s.tab, s.own, |s.mem|)
      && OwnersOk(s.tab, s.own, s.pmm.used)
      && EntriesOk(s)
    ) == true
  }

  /** The table at k hangs in its parent. */
  ghost predicate Linked(s: VM, k: Key)
  {
    !k.L4? ==> Parent(k) in s.tab && At(s, Parent(k), Slot(k)).present
  }

  /** The entry for page v in the space of root r. */
  ghost function Pte(s: VM, r: Frame, v: VPage): Word { At(s, TableOf(r, v), v.d) }

  /** Tables that page v of root r still needs. */
  ghost function MissingTables(tab: map<Key, Frame>, r: Frame, v: VPage): nat
  {
    (if L3(r, v.a) in tab then 0 else 1) + (if L2(r, v.a, v.b) in tab then 0 else 1) + (if TableOf(r, v) in tab then 0 else 1)
  }

  ghost predicate Maps(s: VM, r: Frame, v: VPage, f: Frame)
  {
    UserPage(Pte(s, r, v)) && Pte(s, r, v).pfn == f
  }

  /** The address spaces that map frame f at page v. */
  ghost function Mappers(s: VM, v: VPage, f: Frame): set<Frame>
  {
    set k | k in s.tab && Maps(s, k.root, v, f) :: k.root
  }

  lemma MappersIff(s: VM, v: VPage, f: Frame, r: Frame)
    ensures r in Mappers(s, v, f) <==> Maps(s, r, v, f)
  {
    if Maps(s, r, v, f) {
      assert TableOf(r, v) in s.tab;
      assert TableOf(r, v).root == r;
    }
  }

  /** References are counted exactly; a writable page has one mapper. */
  ghost predicate FrameOk(s: VM, f: Frame)
    requires f in s.own && s.own[f].Pg?
  {
    var m := Mappers(s, s.own[f].v, f);
    && (f < MAX_PAGES && f < |s.pmm.rc| ==> s.pmm.rc[f] == |m|)
    && (forall r, r' :: r in m && r' in m && Pte(s, r, s.own[f].v).writable ==> r == r')
  }

  /** Every table hangs in its space: the tables form one tree per root. */
  ghost predicate Trees(s: VM)
  {
    (
      && Good(s)
      && (forall k {:trigger Linked(s, k)} :: k in s.tab ==> Linked(s, k) && L4(k.root) in s.tab)
      && (forall k :: k in s.tab && k.L4? ==> s.tab[k] == k.root)
    ) == true
  }

  ghost predicate FramesOk(s: VM)
  {
    forall f {:trigger FrameOk(s, f)} :: f in s.own && s.own[f].Pg? ==> FrameOk(s, f)
  }

  /** The invariant of the virtual-memory system between operations. */
  ghost predicate Inv(s: VM) { (Trees(s) && FramesOk(s)) == true }

  /** Whether the processor lets user code at page v: every level of the walk has to. */
  predicate Access(mem: Ram, root: Frame, v: VPage, write: bool)
    requires InUserHalf(v)
  {
    var t3 := Next(mem, Some(root), v.a);
    var t2 := Next(mem, t3, v.b);
    var t1 := Next(mem, t2, v.c);
    && Passes(mem, Some(root), v.a, write) && Passes(mem, t3, v.b, write)
    && Passes(mem, t2, v.c, write) && Passes(mem, t1, v.d, write)
  }

  predicate Passes(mem: Ram, t: Option<Frame>, x: nat, write: bool)
    requires Ix(x)
  {
    t.Some? && t.value < |mem| && mem[t.value][x].present && mem[t.value][x].user && (write ==> mem[t.value][x].writable)
  }

  /** The tables never stand in the way: the last entry alone decides. */
  lemma AccessIsLeaf(s: VM, r: Frame, v: VPage, write: bool)
    requires Trees(s) && L4(r) in s.tab && InUserHalf(v)
    ensures Access(s.mem, r, v, write) <==>
              var e := Translate(s.mem, r, v); e.present && e.user && (write ==> e.writable)
  {
    var k3, k2, k1 := L3(r, v.a), L2(r, v.a, v.b), L1(r, v.a, v.b, v.c);
    assert InnerOk(s, L4(r), v.a) && InnerOk(s, k3, v.b) && InnerOk(s, k2, v.c);
  }

  /** The bookkeeping and the hardware walk agree on every page. */
  lemma TranslateIsPte(s: VM, r: Frame, v: VPage)
    requires Trees(s) && L4(r) in s.tab && InUserHalf(v)
    ensures Translate(s.mem, r, v) == Pte(s, r, v)
  {
    var k3, k2, k1 := L3(r, v.a), L2(r, v.a, v.b), L1(r, v.a, v.b, v.c);
    assert InnerOk(s, L4(r), v.a) && InnerOk(s, k3, v.b) && InnerOk(s, k2, v.c);
    assert k1 in s.tab ==> Linked(s, k1);
    assert k2 in s.tab ==> Linked(s, k2);
    assert k3 in s.tab ==> Linked(s, k3);
  }
}
