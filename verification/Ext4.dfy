/**
 fs/ext4.c: the walk through the extent tree and the read loop on top of it.
 Nodes are the raw bytes of the inode or of a disk block.
 */
module Ext4 {
  import opened Options
  import opened Sizes
  import opened Bytes
  import opened FileBlocks

  const EXT_MAGIC: nat := 0xF30A
  const EXTENTS_FLAG: nat := 0x80000
  const MAX_LEN: nat := 0x8000

  datatype Volume = Volume(disk: Disk, lbaStart: nat, blockSize: nat)

  ghost predicate VolumeOk(v: Volume)
  {
    DiskOk(v.disk) && v.blockSize >= 1024 && v.blockSize / SECTOR * SECTOR == v.blockSize && v.blockSize / SECTOR < 256
  }

  /** The fields of the inode the reader uses. */
  datatype Inode = Inode(flags: nat, sizeLo: nat, block: seq<Byte>)

  predicate InodeOk(ino: Inode) { ino.sizeLo < U32 && |ino.block| == 60 }

  /** ext4_read_block. */
  function ReadBlock(v: Volume, n: nat): Option<seq<Byte>>
  {
    v.disk(v.lbaStart + n * (v.blockSize / SECTOR), v.blockSize / SECTOR)
  }

  // ---- Fields of a node ---------------------------------------------------------------

  predicate NodeFits(b: seq<Byte>) { |b| >= 12 && 12 + 12 * Entries(b) <= |b| }

  function Magic(b: seq<Byte>): nat requires |b| >= 12 { Get16(b, 0) }

  function Entries(b: seq<Byte>): nat requires |b| >= 12 { Get16(b, 2) }

  function Depth(b: seq<Byte>): nat requires |b| >= 12 { Get16(b, 6) }

  predicate HasEntry(b: seq<Byte>, i: nat) { 24 + 12 * i <= |b| }

  function Key(b: seq<Byte>, i: nat): nat requires HasEntry(b, i) { Get32(b, 12 + 12 * i) }

  function Child(b: seq<Byte>, i: nat): nat
    requires HasEntry(b, i)
  {
    Get16(b, 20 + 12 * i) * U32 + Get32(b, 16 + 12 * i)
  }

  datatype Extent = Extent(block: nat, len: nat, start: nat)

  function ExtentAt(b: seq<Byte>, i: nat): Extent
    requires HasEntry(b, i)
  {
    Extent(Key(b, i), Get16(b, 16 + 12 * i), Get16(b, 18 + 12 * i) * U32 + Get32(b, 20 + 12 * i))
  }

  // ---- The walk, on any node the code can read ------------------------------------------

  /** Pointer of the last of the first n index entries that starts at or before l. */
  function Target(b: seq<Byte>, l: nat, n: nat): nat
    requires NodeFits(b) && n <= Entries(b)
  {
    if n == 0 then 0 else if l >= Key(b, n - 1) then Child(b, n - 1) else Target(b, l, n - 1)
  }

  /** The comparison of the source, with its 32-bit sum. */
  predicate Hits(e: Extent, l: nat) { e.block <= l < (e.block + e.len) % U32 }

  /** First entry from i on that holds l. */
  function InLeaf(b: seq<Byte>, l: nat, i: nat): nat
    requires NodeFits(b) && i <= Entries(b)
    decreases Entries(b) - i
  {
    if i == Entries(b) then 0
    else if Hits(ExtentAt(b, i), l) then ExtentAt(b, i).start + (l - ExtentAt(b, i).block)
    else InLeaf(b, l, i + 1)
  }

  /** The node the walk goes to next, if it goes on. */
  function Below(v: Volume, b: seq<Byte>, l: nat): Option<seq<Byte>>
    requires NodeFits(b)
  {
    var t := Target(b, l, Entries(b));
    if Depth(b) == 0 || t == 0 then None
    else match ReadBlock(v, t)
      case None => None
      case Some(c) => if |c| >= 12 && Magic(c) == EXT_MAGIC then Some(c) else None
  }

  /** The walk from b ends after at most n more nodes, and stays inside each. */
  ghost predicate Ends(v: Volume, b: seq<Byte>, l: nat, n: nat)
    decreases n
  {
    NodeFits(b) && (Below(v, b, l).Some? ==> n > 0 && Ends(v, Below(v, b, l).value, l, n - 1))
  }

  ghost function Walk(v: Volume, b: seq<Byte>, l: nat, n: nat): nat
    requires Ends(v, b, l, n)
    decreases n
  {
    if Below(v, b, l).Some? then Walk(v, Below(v, b, l).value, l, n - 1)
    else if Depth(b) == 0 then InLeaf(b, l, 0) else 0
  }

  predicate UsesExtents(ino: Inode) { ino.flags / EXTENTS_FLAG % 2 == 1 }

  ghost predicate Walkable(v: Volume, ino: Inode, l: nat, n: nat)
  {
    InodeOk(ino) && (UsesExtents(ino) && Magic(ino.block) == EXT_MAGIC ==> Ends(v, ino.block, l, n))
  }

  ghost function Physical(v: Volume, ino: Inode, l: nat, n: nat): nat
    requires Walkable(v, ino, l, n)
  {
    if !UsesExtents(ino) then (if l < 12 then Get32(ino.block, 4 * l) else 0)
    else if Magic(ino.block) != EXT_MAGIC then 0
    else Walk(v, ino.block, l, n)
  }

  /** ext4_get_physical_block. */
  method PhysicalBlock(v: Volume, ino: Inode, l: nat, ghost n: nat) returns (phys: nat)
    requires VolumeOk(v) && Walkable(v, ino, l, n)
    ensures phys == Physical(v, ino, l, n)
  {
    if !UsesExtents(ino) {
      if l < 12 {
        return Get32(ino.block, 4 * l);
      }
      return 0;
    }
    var eh := ino.block;
    if Magic(eh) != EXT_MAGIC {
      return 0;
    }
    ghost var m := n;
    while Depth(eh) > 0
      invariant Ends(v, eh, l, m) && Walk(v, eh, l, m) == Walk(v, ino.block, l, n)
      decreases m
    {
      var target := 0;
      for i := 0 to Entries(eh)
        invariant target == Target(eh, l, i)
      {
        if l >= Key(eh, i) {
          target := Child(eh, i);
        }
      }
      if target == 0 {
        return 0;
      }
      var r := ReadBlock(v, target);
      if r.None? {
        return 0;
      }
      eh := r.value;
      BlockSize(v, target);
      if Magic(eh) != EXT_MAGIC {
        return 0;
      }
      m := m - 1;
    }
    phys := 0;
    for i := 0 to Entries(eh)
      invariant phys == 0 && InLeaf(eh, l, i) == InLeaf(eh, l, 0)
    {
      var e := ExtentAt(eh, i);
      if Hits(e, l) {
        return e.start + (l - e.block);
      }
    }
  }

  lemma BlockSize(v: Volume, n: nat)
    requires VolumeOk(v) && ReadBlock(v, n).Some?
    ensures |ReadBlock(v, n).value| == v.blockSize
  {
  }

  // ---- Extent trees ---------------------------------------------------------------------

  /** An extent tree without its storage. */
  datatype Tree = Leaf(exts: seq<Extent>) | Inner(keys: seq<nat>, kids: seq<Tree>)

  /** The bytes b, and the blocks they lead to, hold the tree. */
  ghost predicate Stored(v: Volume, b: seq<Byte>, tree: Tree)
    decreases tree
  {
    NodeFits(b) &&
    match tree
    case Leaf(exts) =>
      && Depth(b) == 0 && Entries(b) == |exts|
      && forall i :: 0 <= i < |exts| ==> exts[i] == ExtentAt(b, i)
    case Inner(keys, kids) =>
      && Depth(b) > 0 && Entries(b) == |keys| == |kids|
      && (forall i :: 0 <= i < |keys| ==> keys[i] == Key(b, i))
      && (forall i :: 0 <= i < |kids| ==> StoredChild(v, b, i) && Stored(v, ReadBlock(v, Child(b, i)).value, kids[i]))
  }

  /** Child i is a readable node one level further down. */
  ghost predicate StoredChild(v: Volume, b: seq<Byte>, i: nat)
  {
    && NodeFits(b) && i < Entries(b) && Child(b, i) != 0
    && match ReadBlock(v, Child(b, i))
       case None => false
       case Some(c) => |c| >= 12 && Magic(c) == EXT_MAGIC && Depth(c) + 1 == Depth(b)
  }

  function Limit(keys: seq<nat>, i: nat, hi: nat): nat { if i + 1 < |keys| then keys[i + 1] else hi }

  /** Keys ascend, extents are initialised, ascend and stay in [lo, hi), every
      child in the interval of its key. */
  ghost predicate Sorted(tree: Tree, lo: nat, hi: nat)
    decreases tree
  {
    match tree
    case Leaf(exts) =>
      && (forall i :: 0 <= i < |exts| ==> lo <= exts[i].block && 1 <= exts[i].len <= MAX_LEN && exts[i].block + exts[i].len <= hi)
      && (forall i, j :: 0 <= i < j < |exts| ==> exts[i].block + exts[i].len <= exts[j].block)
    case Inner(keys, kids) =>
      && |keys| == |kids|
      && (forall i :: 0 <= i < |keys| ==> lo <= keys[i] < hi)
      && (forall i, j :: 0 <= i < j < |keys| ==> keys[i] < keys[j])
      && (forall i :: 0 <= i < |kids| ==> Sorted(kids[i], keys[i], Limit(keys, i, hi)))
  }

  /** All extents from left to right. */
  function Flat(tree: Tree): seq<Extent>
    decreases tree, 0
  {
    match tree
    case Leaf(exts) => exts
    case Inner(keys, kids) => FlatKids(tree, |kids|)
  }

  function FlatKids(tree: Tree, n: nat): seq<Extent>
    requires tree.Inner? && n <= |tree.kids|
    decreases tree, 0, n
  {
    if n == 0 then [] else FlatKids(tree, n - 1) + Flat(tree.kids[n - 1])
  }

  predicate Covers(e: Extent, l: nat) { e.block <= l < e.block + e.len }

  predicate Covered(exts: seq<Extent>, l: nat) { exists i :: 0 <= i < |exts| && Covers(exts[i], l) }

  /** Where the flat list of extents puts logical block l; 0 for a hole. */
  function Mapping(exts: seq<Extent>, l: nat): nat
  {
    if exts == [] then 0
    else if Covers(exts[0], l) then exts[0].start + (l - exts[0].block)
    else Mapping(exts[1..], l)
  }

  lemma {:induction false} MappingConcat(a: seq<Extent>, b: seq<Extent>, l: nat)
    ensures Mapping(a + b, l) == if Covered(a, l) then Mapping(a, l) else Mapping(b, l)
  {
    if a == [] {
      assert a + b == b;
    } else {
      assert (a + b)[1..] == a[1..] + b;
      MappingConcat(a[1..], b, l);
      assert Covered(a[1..], l) ==> Covered(a, l) by {
        if Covered(a[1..], l) {
          var i :| 0 <= i < |a[1..]| && Covers(a[1..][i], l);
          assert Covers(a[i + 1], l);
        }
      }
      if !Covers(a[0], l) && Covered(a, l) {
        var i :| 0 <= i < |a| && Covers(a[i], l);
        assert Covers(a[1..][i - 1], l);
      }
    }
  }

  lemma {:induction false} MappingHole(exts: seq<Extent>, l: nat)
    requires !Covered(exts, l)
    ensures Mapping(exts, l) == 0
  {
    if exts != [] {
      assert !Covers(exts[0], l);
      assert forall i :: 0 <= i < |exts[1..]| ==> exts[1..][i] == exts[i + 1];
      MappingHole(exts[1..], l);
    }
  }

  /** The flat list of a sorted tree says the same wherever one looks: an extent that
      covers l decides, and without one the block is a hole. */
  lemma {:induction false} MappingIs(exts: seq<Extent>, l: nat, i: nat)
    requires i < |exts| && Covers(exts[i], l)
    requires forall j, k :: 0 <= j < k < |exts| ==> exts[j].block + exts[j].len <= exts[k].block
    ensures Mapping(exts, l) == exts[i].start + (l - exts[i].block)
  {
    if i > 0 {
      assert exts[0].block + exts[0].len <= exts[i].block;
      MappingIs(exts[1..], l, i - 1);
    }
  }

  lemma {:induction false} FlatWithin(tree: Tree, lo: nat, hi: nat, e: Extent)
    requires Sorted(tree, lo, hi) && e in Flat(tree)
    ensures lo <= e.block && e.block + e.len <= hi
    decreases tree, |Flat(tree)|
  {
    match tree
    case Leaf(exts) =>
    case Inner(keys, kids) =>
      var i := KidOf(tree, |kids|, e);
      FlatWithin(kids[i], keys[i], Limit(keys, i, hi), e);
  }

  /** The child an extent of the flat list comes from. */
  lemma {:induction false} KidOf(tree: Tree, n: nat, e: Extent) returns (i: nat)
    requires tree.Inner? && n <= |tree.kids| && e in FlatKids(tree, n)
    ensures i < n && e in Flat(tree.kids[i])
    decreases n
  {
    if e in Flat(tree.kids[n - 1]) { i := n - 1; } else { i := KidOf(tree, n - 1, e); }
  }

  /** Only child k can hold l when its key interval does. */
  lemma {:induction false} KidsMapping(tree: Tree, lo: nat, hi: nat, l: nat, k: nat, n: nat)
    requires tree.Inner? && Sorted(tree, lo, hi) && n <= |tree.kids| && k < |tree.kids| == |tree.keys|
    requires tree.keys[k] <= l && (k + 1 < |tree.keys| ==> l < tree.keys[k + 1])
    ensures n <= k ==> !Covered(FlatKids(tree, n), l)
    ensures n > k ==> Mapping(FlatKids(tree, n), l) == Mapping(Flat(tree.kids[k]), l)
    decreases n
  {
    hide Sorted, Covered, Mapping, Flat;
    if n == 0 {
      NoneCovered(l);
    } else {
      KidsMapping(tree, lo, hi, l, k, n - 1);
      var a, b := FlatKids(tree, n - 1), Flat(tree.kids[n - 1]);
      MappingConcat(a, b, l);
      if n - 1 != k {
        OtherKid(tree, lo, hi, l, k, n - 1);
        NotCovered(a, b, l);
        MappingHole(b, l);
        if !Covered(a, l) { MappingHole(a, l); }
      }
    }
  }

  lemma NoneCovered(l: nat)
    ensures !Covered([], l)
  {
  }

  lemma NotCovered(a: seq<Extent>, b: seq<Extent>, l: nat)
    ensures !Covered(a, l) && !Covered(b, l) ==> !Covered(a + b, l)
  {
    if Covered(a + b, l) {
      var i :| 0 <= i < |a + b| && Covers((a + b)[i], l);
      assert i >= |a| ==> Covers(b[i - |a|], l);
    }
  }

  lemma InnerFacts(tree: Tree, lo: nat, hi: nat, i: nat, j: nat)
    requires tree.Inner? && Sorted(tree, lo, hi) && i < |tree.kids| && j < |tree.kids|
    ensures |tree.keys| == |tree.kids| && (i < j ==> tree.keys[i] < tree.keys[j])
    ensures Sorted(tree.kids[j], tree.keys[j], Limit(tree.keys, j, hi))
  {
  }

  lemma OtherKid(tree: Tree, lo: nat, hi: nat, l: nat, k: nat, j: nat)
    requires tree.Inner? && Sorted(tree, lo, hi) && j < |tree.kids| && k < |tree.kids| == |tree.keys| && j != k
    requires tree.keys[k] <= l && (k + 1 < |tree.keys| ==> l < tree.keys[k + 1])
    ensures !Covered(Flat(tree.kids[j]), l)
  {
    hide Sorted, Flat;
    InnerFacts(tree, lo, hi, k, j);
    if j < k { InnerFacts(tree, lo, hi, j + 1, k); } else { InnerFacts(tree, lo, hi, k + 1, j); }
    var exts := Flat(tree.kids[j]);
    if Covered(exts, l) {
      var i :| 0 <= i < |exts| && Covers(exts[i], l);
      FlatWithin(tree.kids[j], tree.keys[j], Limit(tree.keys, j, hi), exts[i]);
      assert false;
    }
  }

  lemma {:induction false} BeforeAll(tree: Tree, lo: nat, hi: nat, l: nat)
    requires tree.Inner? && Sorted(tree, lo, hi) && (forall i :: 0 <= i < |tree.keys| ==> l < tree.keys[i])
    ensures !Covered(Flat(tree), l)
  {
    var exts := Flat(tree);
    if Covered(exts, l) {
      var i :| 0 <= i < |exts| && Covers(exts[i], l);
      var k := KidOf(tree, |tree.kids|, exts[i]);
      FlatWithin(tree.kids[k], tree.keys[k], Limit(tree.keys, k, hi), exts[i]);
      assert false;
    }
  }

  /** Which index entry the loop settles on. */
  lemma {:induction false} TargetIs(b: seq<Byte>, l: nat, n: nat) returns (k: int)
    requires NodeFits(b) && n <= Entries(b)
    ensures -1 <= k < n && (forall i :: k < i < n ==> l < Key(b, i))
    ensures k < 0 ==> Target(b, l, n) == 0
    ensures k >= 0 ==> Key(b, k) <= l && Target(b, l, n) == Child(b, k)
  {
    if n == 0 { k := -1; } else if l >= Key(b, n - 1) { k := n - 1; } else { k := TargetIs(b, l, n - 1); }
  }

  lemma {:induction false} LeafMapping(b: seq<Byte>, exts: seq<Extent>, l: nat, i: nat)
    requires NodeFits(b) && Entries(b) == |exts| && i <= |exts|
    requires forall j :: 0 <= j < |exts| ==> exts[j] == ExtentAt(b, j) && exts[j].block + exts[j].len < U32
    ensures InLeaf(b, l, i) == Mapping(exts[i..], l)
    decreases |exts| - i
  {
    if i < |exts| {
      assert exts[i..][1..] == exts[i + 1..];
      LeafMapping(b, exts, l, i + 1);
    }
  }

  /** On a well-formed tree the walk ends after as many nodes as the tree is deep and
      finds what the flat list of extents says, 0 on holes. */
  lemma {:induction false} WalkIsMapping(v: Volume, b: seq<Byte>, tree: Tree, lo: nat, hi: nat, l: nat, n: nat)
    requires Stored(v, b, tree) && Sorted(tree, lo, hi) && hi < U32 && n >= Depth(b)
    ensures Ends(v, b, l, n) && Walk(v, b, l, n) == Mapping(Flat(tree), l)
    decreases tree
  {
    hide Stored, Sorted, Flat, Mapping, Below, Covered, Target;
    if tree.Leaf? {
      LeafWalk(v, b, tree, lo, hi, l, n);
    } else {
      StoredKeys(v, b, tree);
      var k := TargetIs(b, l, Entries(b));
      if k < 0 {
        BeforeAll(tree, lo, hi, l);
        MappingHole(Flat(tree), l);
        DownNone(v, b, l);
      } else {
        var c := DownTo(v, b, tree, l, k);
        InnerFacts(tree, lo, hi, k, k);
        if k + 1 < |tree.kids| { InnerBound(tree, lo, hi, k + 1); }
        WalkIsMapping(v, c, tree.kids[k], tree.keys[k], Limit(tree.keys, k, hi), l, n - 1);
        KidsMapping(tree, lo, hi, l, k, |tree.kids|);
        FlatInner(tree);
      }
    }
  }

  lemma FlatInner(tree: Tree)
    requires tree.Inner?
    ensures Flat(tree) == FlatKids(tree, |tree.kids|)
  {
  }

  lemma LeafWalk(v: Volume, b: seq<Byte>, tree: Tree, lo: nat, hi: nat, l: nat, n: nat)
    requires tree.Leaf? && Stored(v, b, tree) && Sorted(tree, lo, hi) && hi < U32
    ensures Ends(v, b, l, n) && Walk(v, b, l, n) == Mapping(Flat(tree), l)
  {
    LeafMapping(b, tree.exts, l, 0);
    assert tree.exts[0..] == tree.exts;
  }

  lemma DownNone(v: Volume, b: seq<Byte>, l: nat)
    requires NodeFits(b) && Target(b, l, Entries(b)) == 0
    ensures Below(v, b, l) == None
  {
  }

  lemma InnerBound(tree: Tree, lo: nat, hi: nat, i: nat)
    requires tree.Inner? && Sorted(tree, lo, hi) && i < |tree.keys|
    ensures tree.keys[i] < hi
  {
  }

  lemma StoredKeys(v: Volume, b: seq<Byte>, tree: Tree)
    requires tree.Inner? && Stored(v, b, tree)
    ensures NodeFits(b) && Entries(b) == |tree.keys| == |tree.kids| && Depth(b) > 0
    ensures forall i :: 0 <= i < |tree.keys| ==> tree.keys[i] == Key(b, i)
  {
  }

  /** The walk goes down to child k. */
  lemma DownTo(v: Volume, b: seq<Byte>, tree: Tree, l: nat, k: nat) returns (c: seq<Byte>)
    requires tree.Inner? && Stored(v, b, tree) && k < |tree.kids| && Target(b, l, Entries(b)) == Child(b, k)
    ensures Below(v, b, l) == Some(c) && Stored(v, c, tree.kids[k]) && |c| >= 12 && Depth(c) + 1 == Depth(b)
  {
    assert StoredChild(v, b, k);
    c := ReadBlock(v, Child(b, k)).value;
  }

  predicate Ascends(exts: seq<Extent>)
  {
    forall i, j :: 0 <= i < j < |exts| ==> exts[i].block + exts[i].len <= exts[j].block
  }

  lemma AscendsConcat(a: seq<Extent>, b: seq<Extent>, m: nat)
    requires Ascends(a) && Ascends(b)
    requires forall e :: e in a ==> e.block + e.len <= m
    requires forall e :: e in b ==> m <= e.block
    ensures Ascends(a + b)
  {
    forall i, j | 0 <= i < j < |a + b| ensures (a + b)[i].block + (a + b)[i].len <= (a + b)[j].block {
      if i < |a| { assert a[i] in a; }
      if j >= |a| { assert b[j - |a|] in b; }
    }
  }

  lemma {:induction false} FlatAscends(tree: Tree, lo: nat, hi: nat)
    requires Sorted(tree, lo, hi)
    ensures Ascends(Flat(tree))
    decreases tree, 1, 0
  {
    if tree.Inner? { KidsAscend(tree, lo, hi, |tree.kids|); }
  }

  lemma {:induction false} KidsAscend(tree: Tree, lo: nat, hi: nat, n: nat)
    requires tree.Inner? && Sorted(tree, lo, hi) && n <= |tree.kids|
    ensures Ascends(FlatKids(tree, n))
    decreases tree, 0, n
  {
    hide Sorted, Ascends, Flat;
    if n > 0 {
      KidsAscend(tree, lo, hi, n - 1);
      var k := n - 1;
      InnerFacts(tree, lo, hi, k, k);
      FlatAscends(tree.kids[k], tree.keys[k], Limit(tree.keys, k, hi));
      KidsEnd(tree, lo, hi, k);
      KidStarts(tree, lo, hi, k);
      AscendsConcat(FlatKids(tree, k), Flat(tree.kids[k]), tree.keys[k]);
    } else {
      NoneAscends();
    }
  }

  lemma NoneAscends()
    ensures Ascends([])
  {
  }

  lemma KidsEnd(tree: Tree, lo: nat, hi: nat, k: nat)
    requires tree.Inner? && Sorted(tree, lo, hi) && k < |tree.kids| == |tree.keys|
    ensures forall e :: e in FlatKids(tree, k) ==> e.block + e.len <= tree.keys[k]
  {
    hide Sorted, Flat, FlatKids;
    forall e | e in FlatKids(tree, k) ensures e.block + e.len <= tree.keys[k] {
      var i := KidOf(tree, k, e);
      InnerFacts(tree, lo, hi, k, i);
      if i + 1 < k { InnerFacts(tree, lo, hi, i + 1, k); }
      FlatWithin(tree.kids[i], tree.keys[i], Limit(tree.keys, i, hi), e);
    }
  }

  lemma KidStarts(tree: Tree, lo: nat, hi: nat, k: nat)
    requires tree.Inner? && Sorted(tree, lo, hi) && k < |tree.kids| == |tree.keys|
    ensures forall e :: e in Flat(tree.kids[k]) ==> tree.keys[k] <= e.block
  {
    hide Sorted, Flat;
    InnerFacts(tree, lo, hi, k, k);
    forall e | e in Flat(tree.kids[k]) ensures tree.keys[k] <= e.block {
      FlatWithin(tree.kids[k], tree.keys[k], Limit(tree.keys, k, hi), e);
    }
  }

  /** The walk against the extents themselves: the extent that covers l decides,
      and a block no extent covers is a hole. */
  lemma WalkFinds(v: Volume, b: seq<Byte>, tree: Tree, hi: nat, l: nat)
    requires Stored(v, b, tree) && Sorted(tree, 0, hi) && hi < U32
    ensures Ends(v, b, l, Depth(b))
    ensures forall i :: 0 <= i < |Flat(tree)| && Covers(Flat(tree)[i], l) ==>
              Walk(v, b, l, Depth(b)) == Flat(tree)[i].start + (l - Flat(tree)[i].block)
    ensures !Covered(Flat(tree), l) ==> Walk(v, b, l, Depth(b)) == 0
  {
    WalkIsMapping(v, b, tree, 0, hi, l, Depth(b));
    FlatAscends(tree, 0, hi);
    var exts := Flat(tree);
    hide Stored, Sorted, Flat, Ends, Walk;
    forall i | 0 <= i < |exts| && Covers(exts[i], l) ensures Mapping(exts, l) == exts[i].start + (l - exts[i].block) {
      MappingIs(exts, l, i);
    }
    if !Covered(exts, l) { MappingHole(exts, l); }
  }

  // ---- Reading --------------------------------------------------------------------------

  /** Every logical block can be looked up. */
  ghost predicate AllWalkable(v: Volume, ino: Inode, n: nat)
  {
    (forall l: nat :: Walkable(v, ino, l, n)) == true
  }

  /** What the reader makes of each logical block: zeros for a hole, None if the
      disk fails. */
  ghost function Content(v: Volume, ino: Inode, n: nat): Blocks
  {
    l => if Walkable(v, ino, l, n) then BlockData(v, Physical(v, ino, l, n)) else None
  }

  function BlockData(v: Volume, p: nat): Option<seq<Byte>>
  {
    if p == 0 then Some(Zeros(v.blockSize)) else ReadBlock(v, p)
  }

  /** ext4_read: bytes [offset, offset + got) of the file arrive in order, and got
      is less than the clipped size only if the scratch block cannot be
      allocated or the block of the first missing byte cannot be read. */
  method Read(v: Volume, ino: Inode, offset: nat, size: nat, buffer: array<Byte>, mem: bool, ghost n: nat) returns (got: nat)
    requires VolumeOk(v) && InodeOk(ino) && AllWalkable(v, ino, n)
    requires offset + size < U64 && Clip(ino.sizeLo, offset, size) <= buffer.Length
    modifies buffer
    ensures got <= Clip(ino.sizeLo, offset, size) && Filled(Content(v, ino, n), v.blockSize, offset, buffer[..], got)
    ensures forall i :: got <= i < buffer.Length ==> buffer[i] == old(buffer[i])
    ensures got < Clip(ino.sizeLo, offset, size) ==> !mem || !Readable(Content(v, ino, n), v.blockSize, offset + got)
  {
    hide VolumeOk, AllWalkable, BlockData, Content, Filled, BlockIx;
    VolumeSize(v);
    NoneFilled(Content(v, ino, n), v.blockSize, offset, buffer[..]);
    got := 0;
    if offset >= ino.sizeLo {
      return;
    }
    var want := size;
    if offset + size > ino.sizeLo {
      want := ino.sizeLo - offset;
    }
    if !mem {
      return;
    }
    while got < want
      invariant got <= want && Filled(Content(v, ino, n), v.blockSize, offset, buffer[..], got)
      invariant forall i :: got <= i < buffer.Length ==> buffer[..][i] == old(buffer[..])[i]
    {
      var l := BlockIx(v.blockSize, offset + got);
      var o := BlockOff(v.blockSize, offset + got);
      OffWithin(v.blockSize, offset + got);
      var data := LoadBlock(v, ino, l, n);
      if data.None? {
        return;
      }
      var k := v.blockSize - o;
      if k > want - got {
        k := want - got;
      }
      FillStep(Content(v, ino, n), v.blockSize, offset, buffer[..], got, data.value, o, k);
      CopyInto(buffer, got, data.value[o..o + k]);
      got := got + k;
    }
  }

  /** The block buffer of ext4_read for logical block l. */
  method LoadBlock(v: Volume, ino: Inode, l: nat, ghost n: nat) returns (r: Option<seq<Byte>>)
    requires VolumeOk(v) && AllWalkable(v, ino, n)
    ensures r == Content(v, ino, n)(l) && (r.Some? ==> |r.value| == v.blockSize)
  {
    assert Walkable(v, ino, l, n);
    var p := PhysicalBlock(v, ino, l, n);
    if p == 0 {
      return Some(Zeros(v.blockSize));
    }
    r := ReadBlock(v, p);
    if r.Some? { BlockSize(v, p); }
  }

  lemma VolumeSize(v: Volume)
    requires VolumeOk(v)
    ensures v.blockSize >= 1024
  {
  }

  /** A file stored as a well-formed tree: every block is the one the flat extent
      list names, or zeros in a hole. */
  lemma ContentIsFlat(v: Volume, ino: Inode, tree: Tree, hi: nat, l: nat)
    requires VolumeOk(v) && InodeOk(ino) && UsesExtents(ino) && Magic(ino.block) == EXT_MAGIC
    requires Stored(v, ino.block, tree) && Sorted(tree, 0, hi) && hi < U32
    ensures AllWalkable(v, ino, Depth(ino.block))
    ensures Content(v, ino, Depth(ino.block))(l) == BlockData(v, Mapping(Flat(tree), l))
  {
    hide Stored, Sorted, Flat, Mapping, Ends, Walk, BlockData, VolumeOk;
    var n := Depth(ino.block);
    forall m: nat ensures Walkable(v, ino, m, n) && Physical(v, ino, m, n) == Mapping(Flat(tree), m) {
      WalkIsMapping(v, ino.block, tree, 0, hi, m, n);
    }
  }

  /** The file as its flat extent list describes it. */
  function FlatBlocks(v: Volume, exts: seq<Extent>): Blocks { l => BlockData(v, Mapping(exts, l)) }

  /** What a read of such a file delivers is the slice [offset, offset + got) of the bytes
      that the flat extent list describes. */
  lemma ReadIsSlice(v: Volume, ino: Inode, tree: Tree, hi: nat, offset: nat, b: seq<Byte>, got: nat, n: nat)
    requires VolumeOk(v) && InodeOk(ino) && UsesExtents(ino) && Magic(ino.block) == EXT_MAGIC
    requires Stored(v, ino.block, tree) && Sorted(tree, 0, hi) && hi < U32
    requires Filled(Content(v, ino, Depth(ino.block)), v.blockSize, offset, b, got) && offset + got <= v.blockSize * n
    ensures got <= |b| && |FileBytes(FlatBlocks(v, Flat(tree)), v.blockSize, n)| == v.blockSize * n
    ensures b[..got] == FileBytes(FlatBlocks(v, Flat(tree)), v.blockSize, n)[offset..offset + got]
  {
    hide Stored, Sorted, Flat, Mapping, BlockData, Content, Filled, FileBytes;
    var d, e := Content(v, ino, Depth(ino.block)), FlatBlocks(v, Flat(tree));
    forall l: nat ensures d(l) == e(l) && (d(l).Some? ==> |d(l).value| == v.blockSize) {
      ContentIsFlat(v, ino, tree, hi, l);
      DataSize(v, Mapping(Flat(tree), l));
    }
    FilledIsSlice(d, v.blockSize, offset, b, got, n);
    SameBytes(d, e, v.blockSize, n);
  }

  lemma DataSize(v: Volume, p: nat)
    requires VolumeOk(v)
    ensures BlockData(v, p).Some? ==> |BlockData(v, p).value| == v.blockSize
  {
    if p != 0 && ReadBlock(v, p).Some? { BlockSize(v, p); }
  }
}
