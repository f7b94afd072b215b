/**
 syscall/elf_loader.c with the demand-zero faults of mm/vmm.c.  The address space
 is the flat map from page numbers to page contents that the page tables implement,
 with the frames these tables take from the page allocator.
 */
module ElfLoader {
  import opened Arith
  import opened Options
  import opened Sizes
  import opened Bytes
  import opened TableFrames
  import opened Vmas

  const ELF_MAGIC: nat := 0x464C457F
  const PT_LOAD: nat := 1

  datatype Mapped = Mapped(data: seq<Byte>, writable: bool)
  type Space = map<nat, Mapped>

  function Get64(b: seq<Byte>, o: nat): nat
    requires o + 8 <= |b|
  {
    Get32(b, o) + U32 * Get32(b, o + 4)
  }

  // ---- Program headers -------------------------------------------------------------------

  datatype Segment = Segment(kind: nat, writable: bool, offset: nat, vaddr: nat, filesz: nat, memsz: nat)

  function SegmentAt(f: seq<Byte>, o: nat): Segment
    requires o + 56 <= |f|
  {
    Segment(Get32(f, o), Get32(f, o + 4) / 2 % 2 == 1, Get64(f, o + 8), Get64(f, o + 16), Get64(f, o + 32), Get64(f, o + 40))
  }

  /** The checks on the header. */
  predicate HeaderOk(f: seq<Byte>)
  {
    |f| >= 64 && Get32(f, 0) == ELF_MAGIC && f[4] == 2 && Get16(f, 18) == 0x3E
  }

  function Entry(f: seq<Byte>): nat requires HeaderOk(f) { Get64(f, 24) }

  function HeaderCount(f: seq<Byte>): nat requires HeaderOk(f) { Get16(f, 56) }

  function Times(i: nat, k: nat): nat { i * k }

  function HeaderAt(f: seq<Byte>, i: nat): nat requires HeaderOk(f) { Get64(f, 32) + Times(i, Get16(f, 54)) }

  /** A segment the loader acts on. */
  predicate Loads(s: Segment) { s.kind == PT_LOAD && s.memsz != 0 }

  /** Addresses do not wrap and the file holds the bytes. */
  predicate SegmentOk(f: seq<Byte>, s: Segment)
  {
    Loads(s) ==> s.vaddr + s.memsz + 4095 < U64 && s.vaddr + s.filesz + 4095 < U64 && s.offset + s.filesz <= |f|
  }

  /** The program header table is inside the file and its segments are well formed. */
  predicate FileOk(f: seq<Byte>)
  {
    HeaderOk(f) ==>
      forall i :: 0 <= i < HeaderCount(f) ==> HeaderAt(f, i) + 56 <= |f| && SegmentOk(f, SegmentAt(f, HeaderAt(f, i)))
  }

  // ---- What the loader maps --------------------------------------------------------------

  function StartPage(s: Segment): nat { s.vaddr / PAGE }

  function EndPage(s: Segment): nat { (s.vaddr + s.memsz + 4095) / PAGE }

  /** Pages with file data; the others of the segment are left to the fault handler. */
  function FilePages(s: Segment): nat
  {
    var n := (s.filesz + s.vaddr % PAGE + 4095) / PAGE;
    var all := EndPage(s) - StartPage(s);
    if all <= 0 then 0 else if n > all then all else n
  }

  /** What the gABI puts at address a of segment s. */
  function ByteAt(f: seq<Byte>, s: Segment, a: nat): Byte
  {
    if s.vaddr <= a < s.vaddr + s.filesz && s.offset + (a - s.vaddr) < |f| then f[s.offset + (a - s.vaddr)] else 0
  }

  function PageData(f: seq<Byte>, s: Segment, page: nat): (d: seq<Byte>)
    ensures |d| == PAGE
  {
    seq<Byte>(PAGE, (o: nat) => ByteAt(f, s, page * PAGE + o))
  }

  /** A page to map. */
  datatype Put = Put(page: nat, m: Mapped)

  /** The first n pages of a segment. */
  function SegPuts(f: seq<Byte>, s: Segment, n: nat): seq<Put>
  {
    if n == 0 then []
    else SegPuts(f, s, n - 1) + [Put(StartPage(s) + (n - 1), Mapped(PageData(f, s, StartPage(s) + (n - 1)), s.writable))]
  }

  /** The file pages of all segments, in the order the loader maps them. */
  function AllPuts(f: seq<Byte>, ss: seq<Segment>): seq<Put>
  {
    if ss == [] then []
    else AllPuts(f, ss[..|ss| - 1]) + (if Loads(ss[|ss| - 1]) then SegPuts(f, ss[|ss| - 1], FilePages(ss[|ss| - 1])) else [])
  }

  /** The space with all these pages mapped. */
  function Full(sp: Space, ps: seq<Put>): Space
  {
    if ps == [] then sp else Full(sp, ps[..|ps| - 1])[ps[|ps| - 1].page := ps[|ps| - 1].m]
  }

  function PagesOf(ps: seq<Put>): seq<nat> { seq(|ps|, i requires 0 <= i < |ps| => ps[i].page) }

  // ---- What the loader gets to map -------------------------------------------------------

  /** The address space, and the frames and tables behind it. */
  datatype Image = Image(space: Space, pool: Pool)

  /** pmm_alloc_page and vmm_map_page: without frames for the tables nothing is mapped
      and nobody is told. */
  function MapIn(im: Image, p: Put): Image
    requires im.pool.frames > 0
  {
    var w := PageIn(im.pool, p.page);
    Image(if w.ok then im.space[p.page := p.m] else im.space, w.pool)
  }

  datatype Loaded = Loaded(im: Image, ok: bool)

  /** The page loops: they stop when a page gets no frame. */
  function PutAll(im: Image, ps: seq<Put>): Loaded
  {
    if ps == [] then Loaded(im, true)
    else
      var b := PutAll(im, ps[..|ps| - 1]);
      if !b.ok then b
      else if b.im.pool.frames == 0 then Loaded(b.im, false)
      else Loaded(MapIn(b.im, ps[|ps| - 1]), true)
  }

  /** Every page mapped has its tables. */
  ghost predicate Tabled(im: Image)
  {
    (forall page :: page in im.space ==> NodesOf(page, 3) <= im.pool.tables) == true
  }

  /** Frames that mapping these pages takes, tables included. */
  function Frames(im: Image, ps: seq<Put>): nat { Cost(im.pool.tables, PagesOf(ps)) }

  lemma PutLast(im: Image, ps: seq<Put>, p: Put)
    ensures (ps + [p])[..|ps|] == ps && PagesOf(ps + [p]) == PagesOf(ps) + [p.page]
    ensures Frames(im, ps + [p]) == Frames(im, ps) + 1 + Needs(TablesAfter(im.pool.tables, PagesOf(ps)), p.page)
    ensures TablesAfter(im.pool.tables, PagesOf(ps + [p])) == TablesAfter(im.pool.tables, PagesOf(ps)) + NodesOf(p.page, 3)
  {
    assert PagesOf(ps + [p]) == PagesOf(ps) + [p.page];
    CostLast(im.pool.tables, PagesOf(ps), p.page);
  }

  lemma MapInTabled(im: Image, p: Put)
    requires Tabled(im) && im.pool.frames > 0
    ensures Tabled(MapIn(im, p))
  {
    hide PageIn, Needs, NodesOf;
    PageInIs(im.pool, p.page);
  }

  lemma {:induction false} PutAllTabled(im: Image, ps: seq<Put>)
    requires Tabled(im)
    ensures Tabled(PutAll(im, ps).im)
  {
    hide Tabled, MapIn;
    if ps != [] {
      PutAllTabled(im, ps[..|ps| - 1]);
      var b := PutAll(im, ps[..|ps| - 1]);
      if b.ok && b.im.pool.frames > 0 { MapInTabled(b.im, ps[|ps| - 1]); }
    }
  }

  /** The pages are all mapped exactly when the frames cover them and the tables they
      need; then just those frames are gone. */
  lemma {:induction false} EnoughFrames(im: Image, ps: seq<Put>)
    requires im.pool.frames >= Frames(im, ps)
    ensures PutAll(im, ps) ==
            Loaded(Image(Full(im.space, ps), Pool(im.pool.frames - Frames(im, ps), TablesAfter(im.pool.tables, PagesOf(ps)))), true)
  {
    hide PageIn, Needs, NodesOf, Cost, TablesAfter, PagesOf;
    if ps == [] {
      NoPages(im);
    } else {
      var q, p := ps[..|ps| - 1], ps[|ps| - 1];
      assert ps == q + [p];
      PutLast(im, q, p);
      hide Frames;
      EnoughFrames(im, q);
      PageInIs(PutAll(im, q).im.pool, p.page);
    }
  }

  lemma NoPages(im: Image)
    ensures Frames(im, []) == 0 && TablesAfter(im.pool.tables, PagesOf([])) == im.pool.tables
  {
    assert PagesOf([]) == [];
  }

  /** With fewer frames the loader either reports it, or the page it did not map is the
      very last one and no frame is left. */
  lemma {:induction false} TooFewFrames(im: Image, ps: seq<Put>)
    requires Tabled(im) && im.pool.frames < Frames(im, ps)
    ensures ps != []
    ensures var q, p := ps[..|ps| - 1], ps[|ps| - 1]; var r := PutAll(im, ps);
            && (r.ok <==> im.pool.frames > Frames(im, q))
            && (r.ok ==> r.im.space == Full(im.space, q) && p.page !in r.im.space && r.im.pool.frames == 0)
  {
    if ps == [] { NoPages(im); }
    var q, p := ps[..|ps| - 1], ps[|ps| - 1];
    assert ps == q + [p];
    PutLast(im, q, p);
    hide Frames, PageIn, Needs, NodesOf, Cost, TablesAfter, PagesOf, Tabled;
    if im.pool.frames >= Frames(im, q) {
      EnoughFrames(im, q);
      PutAllTabled(im, q);
      var b := PutAll(im, q).im;
      if b.pool.frames > 0 {
        PageInIs(b.pool, p.page);
        Untabled(b, p.page);
      }
    } else {
      TooFewFrames(im, q);
    }
  }

  /** So the loader succeeds with every page mapped exactly when the frames suffice. */
  lemma LoadedExactly(im: Image, ps: seq<Put>)
    requires Tabled(im)
    ensures var r := PutAll(im, ps);
            (r.ok && forall k :: 0 <= k < |ps| ==> ps[k].page in r.im.space) <==> im.pool.frames >= Frames(im, ps)
  {
    hide Frames, PutAll, Tabled;
    if im.pool.frames >= Frames(im, ps) {
      EnoughFrames(im, ps);
      FullHas(im.space, ps);
    } else {
      TooFewFrames(im, ps);
    }
  }

  lemma {:induction false} FullHas(sp: Space, ps: seq<Put>)
    ensures forall k :: 0 <= k < |ps| ==> ps[k].page in Full(sp, ps)
  {
    if ps != [] { FullHas(sp, ps[..|ps| - 1]); }
  }

  lemma Untabled(im: Image, page: nat)
    requires Tabled(im) && Needs(im.pool.tables, page) > 0
    ensures page !in im.space
  {
    NoNeeds(im.pool.tables, page);
  }

  function AreaOf(s: Segment): Vma { Vma(s.vaddr, s.vaddr + s.memsz, s.writable) }

  /** The areas registered for the segments, newest first. */
  function Areas(vmas: seq<Vma>, ss: seq<Segment>): seq<Vma>
  {
    if ss == [] then vmas
    else (if Loads(ss[|ss| - 1]) then [AreaOf(ss[|ss| - 1])] else []) + Areas(vmas, ss[..|ss| - 1])
  }

  function SegEnd(s: Segment): nat { EndPage(s) * PAGE }

  /** The highest page-aligned segment end, at least h. */
  function Highest(h: nat, ss: seq<Segment>): nat
  {
    if ss == [] then h
    else var m := Highest(h, ss[..|ss| - 1]); var s := ss[|ss| - 1];
      if Loads(s) && SegEnd(s) > m then SegEnd(s) else m
  }

  // ---- Demand-zero faults ----------------------------------------------------------------

  /** What happens once the program runs: an access at a, or other processes leave the
      allocator with that many frames. */
  datatype Touch = Access(a: nat) | Others(frames: nat)

  /** A fault at a on an absent page of a registered area maps a page of zeros, as far as
      there are frames. */
  function Fault(im: Image, vmas: seq<Vma>, t: Touch): Image
  {
    match t
    case Others(n) => im.(pool := im.pool.(frames := n))
    case Access(a) =>
      var area := FindVma(vmas, a);
      if a / PAGE in im.space || area.None? || im.pool.frames == 0 then im
      else MapIn(im, Put(a / PAGE, Mapped(Zeros(PAGE), area.value.writable)))
  }

  function FaultAll(im: Image, vmas: seq<Vma>, at: seq<Touch>): Image
  {
    if at == [] then im else Fault(FaultAll(im, vmas, at[..|at| - 1]), vmas, at[|at| - 1])
  }

  /** The byte a user access at a sees. */
  function Seen(sp: Space, a: nat): Option<Byte>
  {
    if a / PAGE in sp && a % PAGE < |sp[a / PAGE].data| then Some(sp[a / PAGE].data[a % PAGE]) else None
  }

  // ---- The theorem -----------------------------------------------------------------------

  predicate InPages(s: Segment, page: nat) { Loads(s) && StartPage(s) <= page < EndPage(s) }

  predicate InFile(s: Segment, page: nat) { Loads(s) && StartPage(s) <= page < StartPage(s) + FilePages(s) }

  /** The last segment with that file page. */
  function LastFile(ss: seq<Segment>, page: nat): (r: Option<nat>)
    ensures r.Some? ==> r.value < |ss| && InFile(ss[r.value], page) && forall i :: r.value < i < |ss| ==> !InFile(ss[i], page)
    ensures r.None? ==> forall i :: 0 <= i < |ss| ==> !InFile(ss[i], page)
  {
    if ss == [] then None
    else if InFile(ss[|ss| - 1], page) then Some(|ss| - 1)
    else LastFile(ss[..|ss| - 1], page)
  }

  /** The byte at address a: of the last segment whose file pages hold it, else 0. */
  function Shown(f: seq<Byte>, ss: seq<Segment>, a: nat): Byte
  {
    var i := LastFile(ss, a / PAGE);
    if i.Some? then ByteAt(f, ss[i.value], a) else 0
  }

  /** The page is mapped if it is a file page, and what is mapped is as Shown. */
  ghost predicate PageRight(sp: Space, f: seq<Byte>, ss: seq<Segment>, page: nat)
  {
    var i := LastFile(ss, page);
    if i.Some? then page in sp && sp[page].data == PageData(f, ss[i.value], page)
    else page in sp ==> sp[page].data == Zeros(PAGE)
  }

  /** No page belongs to two segments. */
  ghost predicate PageDisjoint(ss: seq<Segment>)
  {
    forall i, j, page :: 0 <= i < |ss| && 0 <= j < |ss| && InPages(ss[i], page) && InPages(ss[j], page) ==> i == j
  }

  /** Pages of a segment behind the file pages hold no file byte. */
  lemma BehindFile(f: seq<Byte>, s: Segment, page: nat)
    requires InPages(s, page) && StartPage(s) + FilePages(s) <= page
    ensures PageData(f, s, page) == Zeros(PAGE)
  {
    var v := s.vaddr % PAGE;
    DivMod(s.vaddr, PAGE);
    var n := (s.filesz + v + 4095) / PAGE;
    assert FilePages(s) == n;
    assert n * PAGE >= s.filesz + v;
    var d := PageData(f, s, page);
    var q := StartPage(s) + n;
    MulMonotone(PAGE, q, page);
    assert PAGE * q >= s.vaddr + s.filesz;
    forall o | 0 <= o < PAGE ensures d[o] == 0 {
      assert d[o] == ByteAt(f, s, page * PAGE + o);
    }
  }

  lemma {:induction false} FullAppend(sp: Space, a: seq<Put>, b: seq<Put>)
    ensures Full(sp, a + b) == Full(Full(sp, a), b)
    decreases |b|
  {
    if b == [] {
      assert a + b == a;
    } else {
      assert (a + b)[..|a + b| - 1] == a + b[..|b| - 1];
      FullAppend(sp, a, b[..|b| - 1]);
    }
  }

  lemma {:induction false} FullSegment(sp: Space, f: seq<Byte>, s: Segment, n: nat, page: nat)
    ensures var r := Full(sp, SegPuts(f, s, n));
            if StartPage(s) <= page < StartPage(s) + n then page in r && r[page].data == PageData(f, s, page)
            else (page in r <==> page in sp) && (page in r ==> r[page] == sp[page])
    decreases n
  {
    hide StartPage, PageData;
    if n > 0 {
      var q := SegPuts(f, s, n - 1);
      assert SegPuts(f, s, n)[..n - 1] == q && |SegPuts(f, s, n)| == n by { SegCount(f, s, n - 1); }
      FullSegment(sp, f, s, n - 1, page);
    }
  }

  lemma {:induction false} SegCount(f: seq<Byte>, s: Segment, n: nat)
    ensures |SegPuts(f, s, n)| == n
    decreases n
  {
    if n > 0 { SegCount(f, s, n - 1); }
  }

  lemma {:induction false} FullRight(sp: Space, f: seq<Byte>, ss: seq<Segment>, page: nat)
    requires page !in sp
    ensures PageRight(Full(sp, AllPuts(f, ss)), f, ss, page)
    decreases |ss|
  {
    if ss != [] {
      var p, s := ss[..|ss| - 1], ss[|ss| - 1];
      FullRight(sp, f, p, page);
      hide Full, PageData, FilePages, StartPage, SegPuts;
      if Loads(s) {
        FullAppend(sp, AllPuts(f, p), SegPuts(f, s, FilePages(s)));
        FullSegment(Full(sp, AllPuts(f, p)), f, s, FilePages(s), page);
      } else {
        assert AllPuts(f, p) + [] == AllPuts(f, p);
      }
    }
  }

  /** A fault anywhere keeps every page right. */
  lemma FaultKeeps(im: Image, f: seq<Byte>, ss: seq<Segment>, vmas: seq<Vma>, t: Touch, page: nat)
    requires PageRight(im.space, f, ss, page)
    ensures PageRight(Fault(im, vmas, t).space, f, ss, page)
  {
    hide PageData, LastFile, PageIn;
  }

  lemma {:induction false} FaultsKeep(im: Image, f: seq<Byte>, ss: seq<Segment>, vmas: seq<Vma>, at: seq<Touch>, page: nat)
    requires PageRight(im.space, f, ss, page)
    ensures PageRight(FaultAll(im, vmas, at).space, f, ss, page)
    decreases |at|
  {
    hide PageRight, Fault;
    if at != [] {
      FaultsKeep(im, f, ss, vmas, at[..|at| - 1], page);
      FaultKeeps(FaultAll(im, vmas, at[..|at| - 1]), f, ss, vmas, at[|at| - 1], page);
    }
  }

  /** The area of a segment is registered. */
  lemma {:induction false} AreaKnown(vmas: seq<Vma>, ss: seq<Segment>, i: nat)
    requires i < |ss| && Loads(ss[i])
    ensures AreaOf(ss[i]) in Areas(vmas, ss)
    decreases |ss|
  {
    var p := ss[..|ss| - 1];
    if i < |p| {
      assert p[i] == ss[i];
      AreaKnown(vmas, p, i);
    }
  }

  lemma SeesByte(sp: Space, f: seq<Byte>, ss: seq<Segment>, a: nat)
    requires PageRight(sp, f, ss, a / PAGE) && a / PAGE in sp
    ensures Seen(sp, a) == Some(Shown(f, ss, a))
  {
    DivMod(a, PAGE);
    var i := LastFile(ss, a / PAGE);
    if i.Some? {
      var d := PageData(f, ss[i.value], a / PAGE);
      assert d[a % PAGE] == ByteAt(f, ss[i.value], a / PAGE * PAGE + a % PAGE);
    }
  }

  /** An access to an area sees something unless there are no frames for its page. */
  lemma AccessMaps(im: Image, vmas: seq<Vma>, a: nat, area: Vma)
    requires area in vmas && area.start <= a < area.end
    ensures var r := Fault(im, vmas, Access(a)); a / PAGE in r.space || r.pool.frames == 0
  {
    hide PageIn;
    if im.pool.frames > 0 { PageInIs(im.pool, a / PAGE); }
  }

  predicate InSegment(s: Segment, a: nat) { Loads(s) && s.vaddr <= a < s.vaddr + s.memsz }

  /** Any segments, overlapping or not, loaded with enough frames into a space that does
      not use the page of a: after any accesses and whatever happens to the free frames,
      an access to a segment sees the byte of the last segment whose file pages hold it,
      else 0, unless there is no frame for a page of zeros. */
  lemma LastSegmentWins(im: Image, vmas: seq<Vma>, f: seq<Byte>, ss: seq<Segment>, i: nat, at: seq<Touch>, a: nat)
    requires i < |ss| && InSegment(ss[i], a) && a / PAGE !in im.space && im.pool.frames >= Frames(im, AllPuts(f, ss))
    ensures var r := FaultAll(PutAll(im, AllPuts(f, ss)).im, Areas(vmas, ss), at + [Access(a)]);
            Seen(r.space, a) == Some(Shown(f, ss, a)) || (Seen(r.space, a) == None && r.pool.frames == 0)
  {
    hide PageRight, Full, AllPuts, Frames, PutAll, Areas, Shown, Fault;
    var areas, page := Areas(vmas, ss), a / PAGE;
    EnoughFrames(im, AllPuts(f, ss));
    FullRight(im.space, f, ss, page);
    var im1 := PutAll(im, AllPuts(f, ss)).im;
    FaultsKeep(im1, f, ss, areas, at + [Access(a)], page);
    AreaKnown(vmas, ss, i);
    assert (at + [Access(a)])[..|at|] == at;
    AccessMaps(FaultAll(im1, areas, at), areas, a, AreaOf(ss[i]));
    var r := FaultAll(im1, areas, at + [Access(a)]);
    if page in r.space { SeesByte(r.space, f, ss, a); }
  }

  /** With page-disjoint segments that is the file byte below p_filesz and 0 above it. */
  lemma LoadedByte(im: Image, vmas: seq<Vma>, f: seq<Byte>, ss: seq<Segment>, i: nat, at: seq<Touch>, a: nat)
    requires PageDisjoint(ss) && i < |ss| && InSegment(ss[i], a) && a / PAGE !in im.space
    requires im.pool.frames >= Frames(im, AllPuts(f, ss))
    ensures var r := FaultAll(PutAll(im, AllPuts(f, ss)).im, Areas(vmas, ss), at + [Access(a)]);
            Seen(r.space, a) == Some(ByteAt(f, ss[i], a)) || (Seen(r.space, a) == None && r.pool.frames == 0)
  {
    LastSegmentWins(im, vmas, f, ss, i, at, a);
    hide PutAll, AllPuts, Areas, FaultAll, Frames, Seen;
    ShownIs(f, ss, i, a);
  }

  lemma ShownIs(f: seq<Byte>, ss: seq<Segment>, i: nat, a: nat)
    requires PageDisjoint(ss) && i < |ss| && InSegment(ss[i], a)
    ensures Shown(f, ss, a) == ByteAt(f, ss[i], a)
  {
    var page := a / PAGE;
    AddressInPages(ss[i], a);
    var l := LastFile(ss, page);
    hide LastFile, PageData, FilePages, StartPage, EndPage;
    if l.Some? {
      FilePagesInside(ss[l.value], page);
      assert l.value == i;
    } else {
      assert !InFile(ss[i], page);
      Beyond(f, ss[i], a);
    }
  }

  lemma Beyond(f: seq<Byte>, s: Segment, a: nat)
    requires InPages(s, a / PAGE) && !InFile(s, a / PAGE)
    ensures ByteAt(f, s, a) == 0
  {
    DivMod(a, PAGE);
    BehindFile(f, s, a / PAGE);
    var d := PageData(f, s, a / PAGE);
    assert d[a % PAGE] == ByteAt(f, s, a / PAGE * PAGE + a % PAGE);
  }

  lemma AddressInPages(s: Segment, a: nat)
    requires InSegment(s, a)
    ensures InPages(s, a / PAGE)
  {
  }

  lemma FilePagesInside(s: Segment, page: nat)
    requires InFile(s, page)
    ensures InPages(s, page)
  {
  }

  /** An area that was not there before is that of a segment. */
  lemma {:induction false} AreaFrom(vmas: seq<Vma>, ss: seq<Segment>, area: Vma) returns (i: nat)
    requires area in Areas(vmas, ss) && area !in vmas
    ensures i < |ss| && IsArea(area, ss[i])
    decreases |ss|
  {
    var p, s := ss[..|ss| - 1], ss[|ss| - 1];
    if Loads(s) && area == AreaOf(s) { i := |ss| - 1; } else { i := AreaFrom(vmas, p, area); }
  }

  lemma {:induction false} OldAreas(vmas: seq<Vma>, ss: seq<Segment>, area: Vma)
    requires area in vmas
    ensures area in Areas(vmas, ss)
    decreases |ss|
  {
    if ss != [] { OldAreas(vmas, ss[..|ss| - 1], area); }
  }

  /** The areas are the old ones and one for each segment that is loaded, of its addresses
      and rights. */
  lemma AreasAre(vmas: seq<Vma>, ss: seq<Segment>, area: Vma)
    ensures area in Areas(vmas, ss) <==> area in vmas || exists i :: 0 <= i < |ss| && IsArea(area, ss[i])
  {
    hide Areas;
    if area in vmas {
      OldAreas(vmas, ss, area);
    } else if area in Areas(vmas, ss) {
      var i := AreaFrom(vmas, ss, area);
    } else if exists i :: 0 <= i < |ss| && IsArea(area, ss[i]) {
      var i :| 0 <= i < |ss| && IsArea(area, ss[i]);
      AreaKnown(vmas, ss, i);
    }
  }

  predicate IsArea(area: Vma, s: Segment)
  {
    s.kind == 1 && s.memsz > 0 && area.start == s.vaddr && area.end == s.vaddr + s.memsz && area.writable == s.writable
  }

  /** The top of the segments: a page boundary less than a page above the end of one of
      them, or h, and below none of them. */
  lemma {:induction false} HighestIs(h: nat, ss: seq<Segment>)
    ensures Highest(h, ss) >= h && forall i :: 0 <= i < |ss| && Loads(ss[i]) ==> Highest(h, ss) >= ss[i].vaddr + ss[i].memsz
    ensures Highest(h, ss) == h || exists i :: 0 <= i < |ss| && EndsAt(ss[i], Highest(h, ss))
    decreases |ss|
  {
    if ss != [] {
      var p, s := ss[..|ss| - 1], ss[|ss| - 1];
      HighestIs(h, p);
      RoundsUp(s);
      hide SegEnd, EndsAt;
      var m := Highest(h, p);
      if m != h {
        var i :| 0 <= i < |p| && EndsAt(p[i], m);
        assert EndsAt(ss[i], m);
      }
      if Loads(s) { assert EndsAt(ss[|ss| - 1], SegEnd(s)); }
    }
  }

  predicate EndsAt(s: Segment, x: nat)
  {
    s.kind == 1 && s.memsz > 0 && x % 4096 == 0 && s.vaddr + s.memsz <= x < s.vaddr + s.memsz + 4096
  }

  lemma RoundsUp(s: Segment)
    ensures s.vaddr + s.memsz <= SegEnd(s) && (Loads(s) ==> EndsAt(s, SegEnd(s)))
  {
    DivMod(s.vaddr + s.memsz + 4095, PAGE);
    DivModUnique(SegEnd(s), PAGE, EndPage(s), 0);
  }

  /** Segment s has addresses on the page. */
  predicate Touches(s: Segment, page: nat)
  {
    s.kind == 1 && s.memsz > 0 && s.vaddr < 4096 * page + 4096 && 4096 * page < s.vaddr + s.memsz
  }

  lemma TouchesPages(s: Segment, page: nat)
    ensures Touches(s, page) <==> InPages(s, page)
  {
    DivMod(s.vaddr, PAGE);
    DivMod(s.vaddr + s.memsz + 4095, PAGE);
    if InPages(s, page) {
      MulMonotone(PAGE, s.vaddr / PAGE, page);
      MulMonotone(PAGE, page + 1, EndPage(s));
    }
  }

  /** If the page is mapped then with the rights of a segment that touches it. */
  ghost predicate Granted(sp: Space, ss: seq<Segment>, page: nat)
  {
    page in sp ==> exists i :: 0 <= i < |ss| && Touches(ss[i], page) && sp[page].writable == ss[i].writable
  }

  lemma GrantedBy(sp: Space, ss: seq<Segment>, page: nat, i: nat)
    requires i < |ss| && InPages(ss[i], page) && page in sp && sp[page].writable == ss[i].writable
    ensures Granted(sp, ss, page)
  {
    TouchesPages(ss[i], page);
  }

  lemma {:induction false} PutsGranted(im: Image, f: seq<Byte>, ss: seq<Segment>, n: nat, page: nat)
    requires n <= |AllPuts(f, ss)| && page !in im.space
    ensures Granted(PutAll(im, AllPuts(f, ss)[..n]).im.space, ss, page)
    decreases n
  {
    hide AllPuts, Granted, PageIn;
    var ps := AllPuts(f, ss);
    if n == 0 {
      NotMapped(im.space, ss, page);
    } else {
      PutsGranted(im, f, ss, n - 1, page);
      assert ps[..n][..n - 1] == ps[..n - 1];
      var b := PutAll(im, ps[..n - 1]);
      var r := PutAll(im, ps[..n]).im.space;
      if ps[n - 1].page == page && page in r && r != b.im.space {
        var i := PutFrom(f, ss, n - 1);
        FilePagesInside(ss[i], page);
        GrantedBy(r, ss, page, i);
      } else {
        SameGrant(b.im.space, r, ss, page);
      }
    }
  }

  lemma NotMapped(sp: Space, ss: seq<Segment>, page: nat)
    requires page !in sp
    ensures Granted(sp, ss, page)
  {
  }

  lemma SameGrant(sp: Space, r: Space, ss: seq<Segment>, page: nat)
    requires Granted(sp, ss, page) && (page in r ==> page in sp && r[page] == sp[page])
    ensures Granted(r, ss, page)
  {
  }

  /** No area has an address on the page. */
  ghost predicate Clear(vmas: seq<Vma>, page: nat)
  {
    forall i :: 0 <= i < |vmas| ==> vmas[i].end <= 4096 * page || 4096 * page + 4096 <= vmas[i].start
  }

  lemma FaultGranted(im: Image, vmas: seq<Vma>, ss: seq<Segment>, t: Touch, page: nat)
    requires Granted(im.space, ss, page) && Clear(vmas, page)
    ensures Granted(Fault(im, Areas(vmas, ss), t).space, ss, page)
  {
    var areas, r := Areas(vmas, ss), Fault(im, Areas(vmas, ss), t).space;
    hide Areas, PageIn, Granted;
    if page !in im.space && page in r {
      var area := FindVma(areas, t.a).value;
      DivMod(t.a, PAGE);
      AreasAre(vmas, ss, area);
      var i :| 0 <= i < |ss| && IsArea(area, ss[i]);
      AddressInPages(ss[i], t.a);
      GrantedBy(r, ss, page, i);
    } else {
      SameGrant(im.space, r, ss, page);
    }
  }

  lemma {:induction false} FaultsGranted(im: Image, vmas: seq<Vma>, ss: seq<Segment>, at: seq<Touch>, page: nat)
    requires Granted(im.space, ss, page) && Clear(vmas, page)
    ensures Granted(FaultAll(im, Areas(vmas, ss), at).space, ss, page)
    decreases |at|
  {
    hide Granted, Fault, Areas;
    if at != [] {
      FaultsGranted(im, vmas, ss, at[..|at| - 1], page);
      FaultGranted(FaultAll(im, Areas(vmas, ss), at[..|at| - 1]), vmas, ss, at[|at| - 1], page);
    }
  }

  /** However many frames there are and whatever is accessed: a page that was free before
      and outside the old areas is mapped only if a segment touches it, and is writable
      only if such a segment is. */
  lemma LoadedRights(im: Image, vmas: seq<Vma>, f: seq<Byte>, ss: seq<Segment>, at: seq<Touch>, page: nat)
    requires page !in im.space && Clear(vmas, page)
    ensures var r := FaultAll(PutAll(im, AllPuts(f, ss)).im, Areas(vmas, ss), at).space;
            page in r ==> exists i :: 0 <= i < |ss| && Touches(ss[i], page) && r[page].writable == ss[i].writable
  {
    var ps := AllPuts(f, ss);
    assert ps[..|ps|] == ps;
    hide PutAll, AllPuts, Areas, FaultAll, Clear;
    PutsGranted(im, f, ss, |ps|, page);
    FaultsGranted(PutAll(im, ps).im, vmas, ss, at, page);
  }

  /** The converse: when the loader succeeds although the frames do not cover the tables,
      one file page is missing, and once frames are free again every access to it in its
      segment sees 0, whatever the file holds. */
  lemma LostPage(im: Image, vmas: seq<Vma>, f: seq<Byte>, ss: seq<Segment>, n: nat) returns (i: nat, page: nat)
    requires Tabled(im) && im.pool.frames < Frames(im, AllPuts(f, ss)) && PutAll(im, AllPuts(f, ss)).ok && n > 3
    ensures i < |ss| && InFile(ss[i], page) && page !in PutAll(im, AllPuts(f, ss)).im.space
    ensures forall a: nat :: InSegment(ss[i], a) && a / PAGE == page ==>
              Seen(FaultAll(PutAll(im, AllPuts(f, ss)).im, Areas(vmas, ss), [Others(n), Access(a)]).space, a) == Some(0)
  {
    var ps := AllPuts(f, ss);
    TooFewFrames(im, ps);
    page := ps[|ps| - 1].page;
    i := PutFrom(f, ss, |ps| - 1);
    var r, areas := PutAll(im, ps).im, Areas(vmas, ss);
    forall a: nat | InSegment(ss[i], a) && a / PAGE == page
      ensures Seen(FaultAll(r, areas, [Others(n), Access(a)]).space, a) == Some(0)
    {
      hide PutAll, AllPuts, Areas;
      AreaKnown(vmas, ss, i);
      ZeroPage(r, areas, AreaOf(ss[i]), n, a);
    }
  }

  lemma ZeroPage(im: Image, vmas: seq<Vma>, area: Vma, n: nat, a: nat)
    requires area in vmas && area.start <= a < area.end && a / PAGE !in im.space && n > 3
    ensures Seen(FaultAll(im, vmas, [Others(n), Access(a)]).space, a) == Some(0)
  {
    hide PageIn, Needs;
    assert [Others(n), Access(a)][..1] == [Others(n)] && [Others(n)][..0] == [];
    assert FaultAll(im, vmas, []) == im;
    var im1 := im.(pool := im.pool.(frames := n));
    assert FaultAll(im, vmas, [Others(n)]) == im1;
    assert FaultAll(im, vmas, [Others(n), Access(a)]) == Fault(im1, vmas, Access(a));
    PageInIs(im1.pool, a / PAGE);
    DivMod(a, PAGE);
  }

  lemma {:induction false} PutFrom(f: seq<Byte>, ss: seq<Segment>, k: nat) returns (i: nat)
    requires k < |AllPuts(f, ss)|
    ensures i < |ss| && InFile(ss[i], AllPuts(f, ss)[k].page) && AllPuts(f, ss)[k].m.writable == ss[i].writable
    decreases |ss|
  {
    var p, s := ss[..|ss| - 1], ss[|ss| - 1];
    if k < |AllPuts(f, p)| {
      i := PutFrom(f, p, k);
    } else {
      i := |ss| - 1;
      SegAt(f, s, FilePages(s), k - |AllPuts(f, p)|);
    }
  }

  lemma {:induction false} SegAt(f: seq<Byte>, s: Segment, n: nat, k: nat)
    requires k < |SegPuts(f, s, n)|
    ensures StartPage(s) <= SegPuts(f, s, n)[k].page < StartPage(s) + n && SegPuts(f, s, n)[k].m.writable == s.writable
    decreases n
  {
    hide StartPage, PageData;
    if k < |SegPuts(f, s, n - 1)| { SegAt(f, s, n - 1, k); }
  }

  /** The smallest case: one file page, no tables and one frame.  The loader succeeds and
      nothing is mapped. */
  lemma OnePage(f: seq<Byte>, s: Segment)
    requires Loads(s) && FilePages(s) == 1
    ensures PutAll(Image(map[], Pool(1, {})), AllPuts(f, [s])) == Loaded(Image(map[], Pool(0, {})), true)
  {
    hide FilePages, PageData, StartPage, Loads;
    var im := Image(map[], Pool(1, {}));
    var put := Put(StartPage(s), Mapped(PageData(f, s, StartPage(s)), s.writable));
    assert [s][..0] == [] && AllPuts(f, []) == [] && SegPuts(f, s, 0) == [];
    assert SegPuts(f, s, 1) == [put] && AllPuts(f, [s]) == [put];
    assert [put][..0] == [] && PutAll(im, []) == Loaded(im, true);
    NoTables(put.page);
    assert PutAll(im, [put]) == Loaded(MapIn(im, put), true);
  }

  /** In such a page a byte 7 of the file reads as 0. */
  lemma LostPageExample()
    ensures var s := Segment(PT_LOAD, false, 0, 0x40_0000, 1, 1); var im := PutAll(Image(map[], Pool(1, {})), AllPuts([7], [s]));
            && im.ok && ByteAt([7], s, 0x40_0000) == 7
            && Seen(FaultAll(im.im, Areas([], [s]), [Others(4), Access(0x40_0000)]).space, 0x40_0000) == Some(0)
  {
    var s := Segment(PT_LOAD, false, 0, 0x40_0000, 1, 1);
    assert FilePages(s) == 1;
    hide FilePages, PageData, StartPage, PutAll, AllPuts, FaultAll, Seen;
    OnePage([7], s);
    assert [s][..0] == [] && Areas([], [s]) == [AreaOf(s)];
    ZeroPage(Image(map[], Pool(0, {})), [AreaOf(s)], AreaOf(s), 4, 0x40_0000);
  }

  lemma NoTables(page: nat)
    ensures PageIn(Pool(1, {}), page) == Walked(Pool(0, {}), false)
  {
  }

  // ---- The loader ------------------------------------------------------------------------

  /** Program headers before the i-th. */
  function Headers(f: seq<Byte>, i: nat): seq<Segment>
    requires HeaderOk(f) && FileOk(f) && i <= HeaderCount(f)
  {
    if i == 0 then [] else Headers(f, i - 1) + [SegmentAt(f, HeaderAt(f, i - 1))]
  }

  /** Where page j starts in the segment, where the segment starts in the page, and
      how many file bytes fall into it. */
  function SegOff(s: Segment, j: nat): nat
  {
    var virt := (StartPage(s) + j) * PAGE;
    if virt > s.vaddr then virt - s.vaddr else 0
  }

  function Dest(s: Segment, j: nat): nat { if j == 0 then s.vaddr % PAGE else 0 }

  function ReadLen(s: Segment, j: nat): nat
  {
    var n := PAGE - Dest(s, j);
    if SegOff(s, j) + n > s.filesz then (if s.filesz > SegOff(s, j) then s.filesz - SegOff(s, j) else 0) else n
  }

  /** One page: cleared, then the part of the file that falls into it is read. */
  method FillPage(f: seq<Byte>, s: Segment, j: nat) returns (data: seq<Byte>)
    requires Loads(s) && SegmentOk(f, s) && j < FilePages(s)
    ensures data == PageData(f, s, StartPage(s) + j)
  {
    hide FilePages, PageData, Loads, SegOff, Dest, ReadLen;
    var page := new Byte[PAGE](_ => 0);
    var dest, n := Dest(s, j), ReadLen(s, j);
    ReadFits(f, s, j);
    if n > 0 {
      var from := s.offset + SegOff(s, j);
      var part := f[from..from + n];
      assert page[..] == Zeros(PAGE);
      CopyInto(page, dest, part);
      Placed(Zeros(PAGE), dest, part, page[..], f, from);
    }
    data := page[..];
    FilledPage(f, s, j, data);
  }

  lemma ReadFits(f: seq<Byte>, s: Segment, j: nat)
    requires Loads(s) && SegmentOk(f, s)
    ensures Dest(s, j) + ReadLen(s, j) <= PAGE
    ensures ReadLen(s, j) > 0 ==> s.offset + SegOff(s, j) + ReadLen(s, j) <= |f|
  {
  }

  lemma Placed(z: seq<Byte>, dest: nat, part: seq<Byte>, r: seq<Byte>, f: seq<Byte>, from: nat)
    requires z == Zeros(PAGE) && dest + |part| <= PAGE && r == Over(z, dest, part)
    requires from + |part| <= |f| && part == f[from..from + |part|]
    ensures forall o :: 0 <= o < PAGE ==> r[o] == if dest <= o < dest + |part| then f[from + (o - dest)] else 0
  {
    forall o | 0 <= o < PAGE ensures r[o] == if dest <= o < dest + |part| then f[from + (o - dest)] else 0 {
      if dest <= o < dest + |part| { assert r[dest + (o - dest)] == part[o - dest]; }
    }
  }

  lemma FilledPage(f: seq<Byte>, s: Segment, j: nat, data: seq<Byte>)
    requires Loads(s) && SegmentOk(f, s) && |data| == PAGE
    requires ReadLen(s, j) > 0 ==> s.offset + SegOff(s, j) + ReadLen(s, j) <= |f|
    requires forall o :: 0 <= o < PAGE ==>
               data[o] == if Dest(s, j) <= o < Dest(s, j) + ReadLen(s, j) then f[s.offset + SegOff(s, j) + (o - Dest(s, j))] else 0
    ensures data == PageData(f, s, StartPage(s) + j)
  {
    DivMod(s.vaddr, PAGE);
    var d := PageData(f, s, StartPage(s) + j);
    var virt := (StartPage(s) + j) * PAGE;
    forall o | 0 <= o < PAGE ensures data[o] == d[o] {
      assert d[o] == ByteAt(f, s, virt + o);
    }
  }

  /** The part of the PCB and the page allocator the loader changes. */
  class Process {
    var space: Space
    var pool: Pool
    var vmas: seq<Vma>
    var heapBase: nat
    var heapEnd: nat

    ghost function View(): Image
      reads this`space, this`pool
    {
      Image(space, pool)
    }

    /** The page loop of one segment. */
    method LoadPages(f: seq<Byte>, s: Segment) returns (ok: bool)
      requires Loads(s) && SegmentOk(f, s)
      modifies this`space, this`pool
      ensures Loaded(View(), ok) == PutAll(old(View()), SegPuts(f, s, FilePages(s)))
    {
      hide FilePages, StartPage, PageData, PageIn, PutAll, SegPuts, Loads, SegmentOk;
      ghost var im := View();
      NoPuts(im, f, s);
      for j := 0 to FilePages(s)
        invariant PutAll(im, SegPuts(f, s, j)) == Loaded(View(), true)
      {
        SegNext(f, s, j);
        PutNext(im, SegPuts(f, s, j), Put(StartPage(s) + j, Mapped(PageData(f, s, StartPage(s) + j), s.writable)));
        if pool.frames == 0 {
          Stops(im, SegPuts(f, s, FilePages(s)), SegPuts(f, s, j + 1));
          SegPrefix(f, s, j + 1, FilePages(s));
          return false;
        }
        var w := PageIn(pool, StartPage(s) + j);
        pool := w.pool;
        var data := FillPage(f, s, j);
        if w.ok {
          space := space[StartPage(s) + j := Mapped(data, s.writable)];
        }
      }
      return true;
    }

    /** elf_load. */
    method Load(f: seq<Byte>) returns (ok: bool, entry: nat)
      requires FileOk(f)
      modifies this
      ensures !HeaderOk(f) ==> !ok && View() == old(View()) && vmas == old(vmas) && heapBase == old(heapBase) && heapEnd == old(heapEnd)
      ensures HeaderOk(f) ==> entry == Entry(f)
      ensures HeaderOk(f) ==> Loaded(View(), ok) == PutAll(old(View()), AllPuts(f, Headers(f, HeaderCount(f))))
      ensures ok ==> HeaderOk(f)
      ensures ok ==>
                var ss := Headers(f, HeaderCount(f));
                vmas == Areas(old(vmas), ss) && heapBase == Highest(0, ss) && heapEnd == Highest(old(heapEnd), ss)
    {
      hide Get16, Get32, SegmentAt, SegPuts, SegEnd, Loads, PutAll, Headers, AllPuts, Areas, Highest, SegmentOk;
      ok, entry := false, 0;
      if |f| < 64 || Get32(f, 0) != ELF_MAGIC || f[4] != 2 || Get16(f, 18) != 0x3E {
        return;
      }
      entry := Get64(f, 24);
      heapBase := 0;
      ghost var im := View();
      NoHeaders(im, f, vmas, heapEnd);
      for i := 0 to Get16(f, 56)
        invariant i <= HeaderCount(f)
        invariant PutAll(im, AllPuts(f, Headers(f, i))) == Loaded(View(), true) && vmas == Areas(old(vmas), Headers(f, i))
        invariant heapBase == Highest(0, Headers(f, i)) && heapEnd == Highest(old(heapEnd), Headers(f, i))
      {
        var s := SegmentAt(f, HeaderAt(f, i));
        OneMore(old(vmas), old(heapEnd), f, i);
        if Loads(s) {
          vmas := [AreaOf(s)] + vmas;
          if SegEnd(s) > heapBase {
            heapBase := SegEnd(s);
          }
          if SegEnd(s) > heapEnd {
            heapEnd := SegEnd(s);
          }
          PutAppend(im, AllPuts(f, Headers(f, i)), SegPuts(f, s, FilePages(s)));
          var mapped := LoadPages(f, s);
          if !mapped {
            Stops(im, AllPuts(f, Headers(f, HeaderCount(f))), AllPuts(f, Headers(f, i + 1)));
            HeadersPrefix(f, i + 1, HeaderCount(f));
            return;
          }
        }
      }
      ok := true;
    }
  }

  lemma NoPuts(im: Image, f: seq<Byte>, s: Segment)
    ensures PutAll(im, SegPuts(f, s, 0)) == Loaded(im, true)
  {
  }

  lemma NoHeaders(im: Image, f: seq<Byte>, vmas: seq<Vma>, h: nat)
    requires HeaderOk(f) && FileOk(f)
    ensures PutAll(im, AllPuts(f, Headers(f, 0))) == Loaded(im, true) && Areas(vmas, Headers(f, 0)) == vmas
    ensures Highest(0, Headers(f, 0)) == 0 && Highest(h, Headers(f, 0)) == h
  {
  }

  lemma PutNext(im: Image, ps: seq<Put>, p: Put)
    requires PutAll(im, ps).ok
    ensures var b := PutAll(im, ps).im;
            PutAll(im, ps + [p]) == if b.pool.frames == 0 then Loaded(b, false) else Loaded(MapIn(b, p), true)
  {
    assert (ps + [p])[..|ps|] == ps;
  }

  lemma SegNext(f: seq<Byte>, s: Segment, j: nat)
    ensures SegPuts(f, s, j + 1) == SegPuts(f, s, j) + [Put(StartPage(s) + j, Mapped(PageData(f, s, StartPage(s) + j), s.writable))]
  {
  }

  lemma {:induction false} SegPrefix(f: seq<Byte>, s: Segment, j: nat, n: nat)
    requires j <= n
    ensures SegPuts(f, s, j) <= SegPuts(f, s, n)
    decreases n - j
  {
    if j < n { SegPrefix(f, s, j, n - 1); }
  }

  lemma {:induction false} HeadersPrefix(f: seq<Byte>, i: nat, n: nat)
    requires HeaderOk(f) && FileOk(f) && i <= n <= HeaderCount(f)
    ensures AllPuts(f, Headers(f, i)) <= AllPuts(f, Headers(f, n))
    decreases n - i
  {
    hide HeaderOk, FileOk, HeaderCount, SegmentAt, Headers, AllPuts, SegPuts, Areas, Highest;
    if i < n {
      HeadersPrefix(f, i, n - 1);
      OneMore([], 0, f, n - 1);
    }
  }

  /** After a page without a frame the loader maps no more. */
  lemma {:induction false} Stops(im: Image, ps: seq<Put>, q: seq<Put>)
    ensures q <= ps && !PutAll(im, q).ok ==> PutAll(im, ps) == PutAll(im, q)
    decreases |ps|
  {
    if q <= ps && q != ps {
      assert q <= ps[..|ps| - 1];
      Stops(im, ps[..|ps| - 1], q);
    }
  }

  lemma {:induction false} PutAppend(im: Image, a: seq<Put>, b: seq<Put>)
    ensures PutAll(im, a).ok ==> PutAll(im, a + b) == PutAll(PutAll(im, a).im, b)
    decreases |b|
  {
    if b == [] {
      assert a + b == a;
    } else {
      assert (a + b)[..|a + b| - 1] == a + b[..|b| - 1];
      PutAppend(im, a, b[..|b| - 1]);
    }
  }

  lemma {:induction false} OneMore(vmas: seq<Vma>, h: nat, f: seq<Byte>, i: nat)
    requires HeaderOk(f) && FileOk(f) && i < HeaderCount(f)
    ensures var s := SegmentAt(f, HeaderAt(f, i)); var p := Headers(f, i); var n := Headers(f, i + 1);
            && SegmentOk(f, s)
            && AllPuts(f, n) == AllPuts(f, p) + (if Loads(s) then SegPuts(f, s, FilePages(s)) else [])
            && (!Loads(s) ==> AllPuts(f, n) == AllPuts(f, p))
            && Areas(vmas, n) == (if Loads(s) then [AreaOf(s)] else []) + Areas(vmas, p)
            && Highest(0, n) == (if Loads(s) && SegEnd(s) > Highest(0, p) then SegEnd(s) else Highest(0, p))
            && Highest(h, n) == (if Loads(s) && SegEnd(s) > Highest(h, p) then SegEnd(s) else Highest(h, p))
  {
    var s, p := SegmentAt(f, HeaderAt(f, i)), Headers(f, i);
    assert (p + [s])[..|p|] == p;
  }
}
