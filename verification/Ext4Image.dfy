/**
 An ext4 file as a writer lays it out in a disk image: the nodes of the extent tree byte by
 byte, the blocks they lead to and the data.  The reader of fs/ext4.c gives it back.
 */
module Ext4Image {
  import opened Arith
  import opened Options
  import opened Bytes
  import opened FileBlocks
  import opened Images
  import opened Ext4

  // ---- Nodes -------------------------------------------------------------------------------

  function HeaderBytes(entries: nat, max: nat, depth: nat, generation: nat): seq<Byte>
    requires entries < Pow256(2) && max < Pow256(2) && depth < Pow256(2) && generation < Pow256(4)
  {
    Pows();
    Le(0xF30A, 2) + (Le(entries, 2) + (Le(max, 2) + (Le(depth, 2) + Le(generation, 4))))
  }

  predicate ExtentFits(e: Extent) { e.block < Pow256(4) && e.len < Pow256(2) && e.start / U32 < Pow256(2) }

  function ExtentBytes(e: Extent): seq<Byte>
    requires ExtentFits(e)
  {
    Pows();
    Le(e.block, 4) + (Le(e.len, 2) + (Le(e.start / U32, 2) + Le(e.start % U32, 4)))
  }

  function IndexBytes(key: nat, child: nat, unused: nat): seq<Byte>
    requires key < Pow256(4) && child / U32 < Pow256(2) && unused < Pow256(2)
  {
    Pows();
    Le(key, 4) + (Le(child % U32, 4) + (Le(child / U32, 2) + Le(unused, 2)))
  }

  lemma ReadsHeader(b: seq<Byte>, entries: nat, max: nat, depth: nat, generation: nat)
    requires entries < Pow256(2) && max < Pow256(2) && depth < Pow256(2) && generation < Pow256(4)
    requires Lies(b, 0, HeaderBytes(entries, max, depth, generation))
    ensures |b| >= 12 && Magic(b) == 0xF30A && Entries(b) == entries && Depth(b) == depth
  {
    Pows();
    hide Le, Lies, Get16, Pow256;
    LiesParts(b, 0, Le(0xF30A, 2), Le(entries, 2) + (Le(max, 2) + (Le(depth, 2) + Le(generation, 4))));
    LiesParts(b, 2, Le(entries, 2), Le(max, 2) + (Le(depth, 2) + Le(generation, 4)));
    LiesParts(b, 4, Le(max, 2), Le(depth, 2) + Le(generation, 4));
    LiesParts(b, 6, Le(depth, 2), Le(generation, 4));
    LiesIs(b, 8, Le(generation, 4));
    Reads16(b, 0, 0xF30A);
    Reads16(b, 2, entries);
    Reads16(b, 6, depth);
  }

  lemma ReadsExtent(b: seq<Byte>, i: nat, e: Extent)
    requires ExtentFits(e) && Lies(b, 12 + 12 * i, ExtentBytes(e))
    ensures HasEntry(b, i) && ExtentAt(b, i) == e
  {
    Pows();
    var o := 12 + 12 * i;
    DivMod(e.start, U32);
    hide Le, Lies, Get16, Get32, Pow256;
    LiesParts(b, o, Le(e.block, 4), Le(e.len, 2) + (Le(e.start / U32, 2) + Le(e.start % U32, 4)));
    LiesParts(b, o + 4, Le(e.len, 2), Le(e.start / U32, 2) + Le(e.start % U32, 4));
    LiesParts(b, o + 6, Le(e.start / U32, 2), Le(e.start % U32, 4));
    LiesIs(b, o + 8, Le(e.start % U32, 4));
    Reads32(b, o, e.block);
    Reads16(b, o + 4, e.len);
    Reads16(b, o + 6, e.start / U32);
    Reads32(b, o + 8, e.start % U32);
  }

  lemma ReadsIndex(b: seq<Byte>, i: nat, key: nat, child: nat, unused: nat)
    requires key < Pow256(4) && child / U32 < Pow256(2) && unused < Pow256(2)
    requires Lies(b, 12 + 12 * i, IndexBytes(key, child, unused))
    ensures HasEntry(b, i) && Key(b, i) == key && Child(b, i) == child
  {
    hide Le, Lies, Get16, Get32, Pow256, IndexBytes;
    var lo, hi := IndexIs(key, child, unused);
    IndexParts(b, 12 + 12 * i, key, lo, hi, unused);
  }

  lemma IndexIs(key: nat, child: nat, unused: nat) returns (lo: nat, hi: nat)
    requires key < Pow256(4) && child / U32 < Pow256(2) && unused < Pow256(2)
    ensures lo < Pow256(4) && hi < Pow256(2) && child == hi * U32 + lo
    ensures IndexBytes(key, child, unused) == Le(key, 4) + (Le(lo, 4) + (Le(hi, 2) + Le(unused, 2)))
  {
    Pows();
    DivMod(child, U32);
    lo, hi := child % U32, child / U32;
  }

  lemma IndexParts(b: seq<Byte>, o: nat, key: nat, lo: nat, hi: nat, unused: nat)
    requires key < Pow256(4) && lo < Pow256(4) && hi < Pow256(2) && unused < Pow256(2)
    requires Lies(b, o, Le(key, 4) + (Le(lo, 4) + (Le(hi, 2) + Le(unused, 2))))
    ensures o + 12 <= |b| && Get32(b, o) == key && Get32(b, o + 4) == lo && Get16(b, o + 8) == hi
  {
    hide Le, Lies, Get16, Get32, Pow256;
    LiesParts(b, o, Le(key, 4), Le(lo, 4) + (Le(hi, 2) + Le(unused, 2)));
    LiesParts(b, o + 4, Le(lo, 4), Le(hi, 2) + Le(unused, 2));
    LiesParts(b, o + 8, Le(hi, 2), Le(unused, 2));
    LiesIs(b, o + 10, Le(unused, 2));
    Reads32(b, o, key);
    Reads32(b, o + 4, lo);
    Reads16(b, o + 8, hi);
  }

  // ---- Trees -------------------------------------------------------------------------------

  /** A volume in an image: its first sector and the size of its blocks in sectors. */
  datatype Place = Place(img: seq<Byte>, lba: nat, secs: nat)

  predicate PlaceOk(p: Place) { 2 <= p.secs < 256 }

  function VolumeOf(p: Place): Volume { Volume(DiskOf(p.img), p.lba, 512 * p.secs) }

  /** Where block n starts. */
  function BlockPos(p: Place, n: nat): nat { 512 * (p.lba + n * p.secs) }

  /** Block n of the volume holds w. */
  predicate BlockHolds(p: Place, n: nat, w: seq<Byte>) { |w| == 512 * p.secs && Lies(p.img, BlockPos(p, n), w) }

  lemma ReadsBlock(p: Place, n: nat, w: seq<Byte>)
    requires BlockHolds(p, n, w)
    ensures ReadBlock(VolumeOf(p), n) == Some(w)
  {
    ReadsSectors(p.img, p.lba + n * p.secs, p.secs, w);
  }

  lemma VolumeOfOk(p: Place)
    requires PlaceOk(p)
    ensures VolumeOk(VolumeOf(p))
  {
    DiskOfOk(p.img);
  }

  /** A tree with the block and the bytes of every node below the root. */
  datatype Laid =
    | Bottom(exts: seq<Extent>)
    | Index(keys: seq<nat>, blocks: seq<nat>, nodes: seq<seq<Byte>>, kids: seq<Laid>)

  function TreeOf(t: Laid): Tree
    decreases t
  {
    match t
    case Bottom(exts) => Leaf(exts)
    case Index(keys, blocks, nodes, kids) => Inner(keys, seq(|kids|, i requires 0 <= i < |kids| => TreeOf(kids[i])))
  }

  predicate HeaderLies(b: seq<Byte>, entries: nat, depth: nat)
  {
    && entries < Pow256(2) && depth < Pow256(2)
    && exists max: nat, generation: nat ::
         max < Pow256(2) && generation < Pow256(4) && Lies(b, 0, HeaderBytes(entries, max, depth, generation))
  }

  predicate IndexLies(b: seq<Byte>, i: nat, key: nat, child: nat)
  {
    && key < Pow256(4) && child / U32 < Pow256(2)
    && exists unused: nat :: unused < Pow256(2) && Lies(b, 12 + 12 * i, IndexBytes(key, child, unused))
  }

  /** b is the root of the tree, depth levels above its leaves, and the image holds the
      other nodes. */
  predicate Written(p: Place, b: seq<Byte>, t: Laid, depth: nat)
    decreases t
  {
    match t
    case Bottom(exts) =>
      && depth == 0 && HeaderLies(b, |exts|, 0)
      && forall i :: 0 <= i < |exts| ==> ExtentFits(exts[i]) && Lies(b, 12 + 12 * i, ExtentBytes(exts[i]))
    case Index(keys, blocks, nodes, kids) =>
      && depth > 0 && |keys| == |blocks| == |nodes| == |kids| && HeaderLies(b, |keys|, depth)
      && (forall i :: 0 <= i < |keys| ==> IndexLies(b, i, keys[i], blocks[i]))
      && (forall i :: 0 <= i < |kids| ==> blocks[i] != 0 && BlockHolds(p, blocks[i], nodes[i]) && Written(p, nodes[i], kids[i], depth - 1))
  }

  lemma ReadsNode(b: seq<Byte>, entries: nat, depth: nat)
    requires HeaderLies(b, entries, depth)
    ensures |b| >= 12 && Magic(b) == 0xF30A && Entries(b) == entries && Depth(b) == depth
  {
    var max: nat, generation: nat :|
      max < Pow256(2) && generation < Pow256(4) && Lies(b, 0, HeaderBytes(entries, max, depth, generation));
    ReadsHeader(b, entries, max, depth, generation);
  }

  lemma ReadsChild(b: seq<Byte>, i: nat, key: nat, child: nat)
    requires IndexLies(b, i, key, child)
    ensures HasEntry(b, i) && Key(b, i) == key && Child(b, i) == child
  {
    var unused: nat :| unused < Pow256(2) && Lies(b, 12 + 12 * i, IndexBytes(key, child, unused));
    ReadsIndex(b, i, key, child, unused);
  }

  lemma WrittenNode(p: Place, b: seq<Byte>, t: Laid, depth: nat)
    requires Written(p, b, t, depth)
    ensures |b| >= 12 && Magic(b) == 0xF30A && Depth(b) == depth
    ensures NodeFits(b) && Entries(b) == if t.Bottom? then |t.exts| else |t.keys|
  {
    hide HeaderLies, IndexLies, ExtentBytes, ExtentFits, Lies, Get16, Get32;
    var n := if t.Bottom? then |t.exts| else |t.keys|;
    ReadsNode(b, n, depth);
    if n > 0 {
      if t.Bottom? { ReadsExtent(b, n - 1, t.exts[n - 1]); } else { ReadsChild(b, n - 1, t.keys[n - 1], t.blocks[n - 1]); }
    }
  }

  /** The reader sees the tree that was written. */
  lemma {:induction false} WrittenIsStored(p: Place, b: seq<Byte>, t: Laid, depth: nat)
    requires Written(p, b, t, depth)
    ensures Stored(VolumeOf(p), b, TreeOf(t))
    decreases t
  {
    hide HeaderLies, IndexLies, ExtentBytes, ExtentFits, Lies, Get16, Get32, ExtentAt, Key, Child, Entries, Depth, VolumeOf, BlockHolds;
    WrittenNode(p, b, t, depth);
    var v := VolumeOf(p);
    match t
    case Bottom(exts) =>
      forall i | 0 <= i < |exts| ensures exts[i] == ExtentAt(b, i) { ReadsExtent(b, i, exts[i]); }
    case Index(keys, blocks, nodes, kids) =>
      forall i | 0 <= i < |keys| ensures keys[i] == Key(b, i) && Child(b, i) == blocks[i] { ReadsChild(b, i, keys[i], blocks[i]); }
      forall i | 0 <= i < |kids| ensures StoredChild(v, b, i) && Stored(v, ReadBlock(v, Child(b, i)).value, TreeOf(kids[i])) {
        ReadsBlock(p, blocks[i], nodes[i]);
        WrittenNode(p, nodes[i], kids[i], depth - 1);
        WrittenIsStored(p, nodes[i], kids[i], depth - 1);
      }
  }

  // ---- Data --------------------------------------------------------------------------------

  /** Block l of the data: where every extent that covers it says, or zero without one. */
  predicate DataBlock(p: Place, exts: seq<Extent>, data: seq<Byte>, n: nat, l: nat)
    requires |data| == 512 * p.secs * n && l < n
  {
    BlockInside(512 * p.secs, l, n);
    var w := BlockOf(data, 512 * p.secs, l);
    && (forall i :: 0 <= i < |exts| && Covers(exts[i], l) ==> exts[i].start > 0 && BlockHolds(p, exts[i].start + (l - exts[i].block), w))
    && (!Covered(exts, l) ==> w == Zeros(512 * p.secs))
  }

  /** The image holds all n blocks. */
  predicate DataWritten(p: Place, exts: seq<Extent>, data: seq<Byte>, n: nat)
  {
    |data| == 512 * p.secs * n && forall l: nat :: l < n ==> DataBlock(p, exts, data, n, l)
  }

  lemma BlockIsData(p: Place, exts: seq<Extent>, data: seq<Byte>, n: nat, l: nat)
    requires DataWritten(p, exts, data, n) && Ascends(exts) && l < n
    ensures 512 * p.secs * (l + 1) <= |data| && BlockData(VolumeOf(p), Mapping(exts, l)) == Some(BlockOf(data, 512 * p.secs, l))
  {
    hide Mapping, BlockHolds, BlockOf, ReadBlock;
    BlockInside(512 * p.secs, l, n);
    assert DataBlock(p, exts, data, n, l);
    if Covered(exts, l) {
      var i :| 0 <= i < |exts| && Covers(exts[i], l);
      MappingIs(exts, l, i);
      ReadsBlock(p, exts[i].start + (l - exts[i].block), BlockOf(data, 512 * p.secs, l));
    } else {
      MappingHole(exts, l);
    }
  }

  lemma ContentIsData(p: Place, ino: Inode, t: Laid, depth: nat, hi: nat, data: seq<Byte>, n: nat)
    requires PlaceOk(p) && InodeOk(ino) && UsesExtents(ino) && Written(p, ino.block, t, depth)
    requires Sorted(TreeOf(t), 0, hi) && hi < U32 && DataWritten(p, Flat(TreeOf(t)), data, n)
    ensures AllWalkable(VolumeOf(p), ino, depth) && Holds(Content(VolumeOf(p), ino, depth), 512 * p.secs, n, data)
  {
    hide Written, Sorted, Flat, TreeOf, Stored, AllWalkable, Content, BlockData, Mapping, Ascends, VolumeOf, BlockOf, Magic, Depth, UsesExtents;
    var v, tree, bs := VolumeOf(p), TreeOf(t), 512 * p.secs;
    VolumeOfOk(p);
    hide VolumeOk, PlaceOk;
    WrittenNode(p, ino.block, t, depth);
    WrittenIsStored(p, ino.block, t, depth);
    FlatAscends(tree, 0, hi);
    ContentIsFlat(v, ino, tree, hi, 0);
    var d := Content(v, ino, depth);
    DataSized(p, Flat(tree), data, n);
    hide DataWritten;
    forall l: nat | l < n ensures bs * (l + 1) <= |data| && d(l) == Some(BlockOf(data, bs, l)) {
      ContentIsFlat(v, ino, tree, hi, l);
      BlockInside(bs, l, n);
      BlockIsData(p, Flat(tree), data, n, l);
    }
  }

  lemma DataSized(p: Place, exts: seq<Extent>, data: seq<Byte>, n: nat)
    requires DataWritten(p, exts, data, n)
    ensures |data| == 512 * p.secs * n
  {
  }

  /** A file written to an image: whatever ext4_read leaves behind is, with memory for its
      scratch block, the whole slice of the data that was asked for. */
  lemma ReadsBack(p: Place, ino: Inode, t: Laid, depth: nat, hi: nat, data: seq<Byte>, n: nat, offset: nat, size: nat, b: seq<Byte>, got: nat)
    requires PlaceOk(p) && InodeOk(ino) && UsesExtents(ino) && Written(p, ino.block, t, depth)
    requires Sorted(TreeOf(t), 0, hi) && hi < U32 && DataWritten(p, Flat(TreeOf(t)), data, n) && ino.sizeLo <= |data|
    requires var d, bs, want := Content(VolumeOf(p), ino, depth), 512 * p.secs, Clip(ino.sizeLo, offset, size);
             got <= want && Filled(d, bs, offset, b, got) && (got < want ==> !Readable(d, bs, offset + got))
    ensures got == Clip(ino.sizeLo, offset, size) <= |b|
    ensures got > 0 ==> offset + got <= |data| && b[..got] == data[offset..offset + got]
  {
    hide Written, Sorted, Flat, TreeOf, Content, Filled, Readable, Holds, InodeOk, UsesExtents, DataWritten, VolumeOf;
    ContentIsData(p, ino, t, depth, hi, data, n);
    var want := Clip(ino.sizeLo, offset, size);
    if want > 0 {
      FilledFromHeld(Content(VolumeOf(p), ino, depth), 512 * p.secs, n, data, offset, b, got, want);
    }
  }

  /** Without the extents flag the first twelve blocks are the words of the inode, and there
      are no others. */
  lemma ReadsDirect(v: Volume, ino: Inode, l: nat, x: nat, n: nat)
    requires InodeOk(ino) && ino.flags / 0x8_0000 % 2 == 0 && (l < 12 ==> Field(ino.block, 4 * l, 4, x))
    ensures Walkable(v, ino, l, n) && Physical(v, ino, l, n) == if l < 12 then x else 0
  {
    hide Field, Get32;
    if l < 12 { Reads32(ino.block, 4 * l, x); }
  }
}
