/**
 A FAT32 file and a directory as a writer lays them out in a disk image: the words of the
 allocation table, the clusters and the directory entries byte by byte.  The reader of
 fs/fat32.c gives them back.
 */
module Fat32Image {
  import opened Arith
  import opened Options
  import opened Bytes
  import opened FileBlocks
  import opened Images
  import opened Fat32

  /** A volume in an image: the first sectors of the table and of the clusters, and the
      sectors of a cluster. */
  datatype Place = Place(img: seq<Byte>, fatLba: nat, dataLba: nat, secs: nat)

  predicate PlaceOk(p: Place) { 0 < p.secs < 256 }

  function FsOf(p: Place): Fs { Fs(DiskOf(p.img), p.fatLba, p.dataLba, p.secs) }

  lemma FsOfOk(p: Place)
    requires PlaceOk(p)
    ensures FsOk(FsOf(p)) && ClusterSize(FsOf(p)) == 512 * p.secs
  {
    DiskOfOk(p.img);
  }

  // ---- The table and the clusters ----------------------------------------------------------

  /** The table, whose sectors have 32-bit numbers, has the word x for cluster c. */
  predicate Word(p: Place, c: nat, x: nat)
  {
    && c < 0x1000_0000 && p.fatLba + c / 128 < U32 && 512 * (p.fatLba + c / 128) + 512 <= |p.img|
    && Field(p.img, 512 * p.fatLba + 4 * c, 4, x)
  }

  lemma SliceField(b: seq<Byte>, o: nat, n: nat, i: nat, x: nat)
    requires o + n <= |b| && i + 4 <= n && Field(b, o + i, 4, x)
    ensures Get32(b[o..o + n], i) == x
  {
    hide Le;
    var s := b[o..o + n];
    var u, v := s[i..i + 4], b[o + i..o + i + 4];
    assert forall j :: 0 <= j < 4 ==> u[j] == v[j];
    assert u == v;
    Reads32(s, i, x);
  }

  lemma WordPlace(c: nat)
    requires c < 0x1000_0000
    ensures c * 4 % U32 == 4 * c && 4 * c / 512 == c / 128 && 4 * c % 512 == 4 * (c % 128) && 4 * c == 512 * (c / 128) + 4 * (c % 128)
  {
    DivMod(c, 128);
    DivModUnique(4 * c, 512, c / 128, 4 * (c % 128));
  }

  /** The upper four bits of a word do not count. */
  lemma ReadsWord(p: Place, c: nat, x: nat)
    requires Word(p, c, x)
    ensures Next(FsOf(p), c) == x % 0x1000_0000
  {
    hide Field, Get32;
    WordPlace(c);
    var q := p.fatLba + c / 128;
    var w := p.img[512 * q..512 * q + 512];
    ReadsSectors(p.img, q, 1, w);
    SliceField(p.img, 512 * q, 512, 4 * (c % 128), x);
  }

  /** Cluster c holds w. */
  predicate ClusterHolds(p: Place, c: nat, w: seq<Byte>)
  {
    && 2 <= c < 0x1000_0000 && |w| == 512 * p.secs && p.dataLba + (c - 2) * p.secs < U32
    && Lies(p.img, 512 * (p.dataLba + (c - 2) * p.secs), w)
  }

  lemma ReadsCluster(p: Place, c: nat, w: seq<Byte>)
    requires ClusterHolds(p, c, w)
    ensures ReadCluster(FsOf(p), c) == Some(w)
  {
    hide Lies, DiskOf, ClusterLba;
    NoWrap(p.dataLba, c, p.secs);
    ReadsSectors(p.img, ClusterLba(p.dataLba, c, p.secs), p.secs, w);
  }

  lemma NoWrap(dataLba: nat, c: nat, secs: nat)
    requires 2 <= c < U32 && dataLba + (c - 2) * secs < U32
    ensures ClusterLba(dataLba, c, secs) == dataLba + (c - 2) * secs
  {
    assert (c - 2) % U32 == c - 2;
  }

  /** The words of the clusters cs: each leads to the next, the last one ends the chain. */
  predicate Linked(p: Place, cs: seq<nat>, words: seq<nat>)
  {
    && |words| == |cs| > 0
    && (forall k :: 0 <= k < |cs| ==> Word(p, cs[k], words[k]) && cs[k] < 0x0FFF_FFF8)
    && (forall k :: 0 <= k < |cs| - 1 ==> words[k] % 0x1000_0000 == cs[k + 1])
    && words[|cs| - 1] % 0x1000_0000 >= 0x0FFF_FFF8
  }

  lemma LinkedNext(p: Place, cs: seq<nat>, words: seq<nat>, k: nat)
    requires Linked(p, cs, words) && k < |cs|
    ensures cs[k] < CHAIN_END
    ensures if k + 1 < |cs| then Next(FsOf(p), cs[k]) == cs[k + 1] else Next(FsOf(p), cs[k]) >= CHAIN_END
  {
    hide Word, Next;
    ReadsWord(p, cs[k], words[k]);
  }

  lemma LinkedIsChain(p: Place, cs: seq<nat>, words: seq<nat>)
    requires Linked(p, cs, words)
    ensures Chain(FsOf(p), cs)
  {
    hide Word, Next, Linked;
    LinkedSome(p, cs, words);
    forall k | 0 <= k < |cs| - 1 ensures Fat32.Linked(FsOf(p), cs, k) {
      LinkedNext(p, cs, words, k);
      LinkedNext(p, cs, words, k + 1);
    }
    LinkedNext(p, cs, words, |cs| - 1);
  }

  lemma LinkedSome(p: Place, cs: seq<nat>, words: seq<nat>)
    requires Linked(p, cs, words)
    ensures cs != []
  {
  }

  /** The clusters cs hold the data one after the other. */
  predicate DataWritten(p: Place, cs: seq<nat>, data: seq<Byte>)
  {
    && |data| == 512 * p.secs * |cs|
    && forall k :: 0 <= k < |cs| ==> DataCluster(p, cs, data, k)
  }

  predicate DataCluster(p: Place, cs: seq<nat>, data: seq<Byte>, k: nat)
    requires |data| == 512 * p.secs * |cs| && k < |cs|
  {
    BlockInside(512 * p.secs, k, |cs|);
    ClusterHolds(p, cs[k], BlockOf(data, 512 * p.secs, k))
  }

  lemma ContentIsData(p: Place, cs: seq<nat>, words: seq<nat>, data: seq<Byte>)
    requires PlaceOk(p) && Linked(p, cs, words) && DataWritten(p, cs, data)
    ensures cs != [] && Holds(Content(FsOf(p), cs[0]), 512 * p.secs, |cs|, data)
  {
    hide Linked, Content, ReadCluster, FsOf, BlockOf, ClusterHolds, Chain, Kth;
    LinkedSome(p, cs, words);
    LinkedIsChain(p, cs, words);
    var d, bs := Content(FsOf(p), cs[0]), 512 * p.secs;
    forall k: nat | k < |cs| ensures bs * (k + 1) <= |data| && d(k) == Some(BlockOf(data, bs, k)) {
      BlockInside(bs, k, |cs|);
      assert DataCluster(p, cs, data, k);
      ContentOfChain(FsOf(p), cs, k);
      ReadsCluster(p, cs[k], BlockOf(data, bs, k));
    }
  }

  /** A file written to an image: whatever fat32_read leaves behind is the whole slice of
      the data that was asked for. */
  lemma ReadsBack(p: Place, cs: seq<nat>, words: seq<nat>, data: seq<Byte>, fileSize: nat, offset: nat, size: nat, b: seq<Byte>, got: nat)
    requires PlaceOk(p) && Linked(p, cs, words) && DataWritten(p, cs, data) && fileSize <= |data| && cs != []
    requires var d, bs, want := Content(FsOf(p), cs[0]), 512 * p.secs, Clip(fileSize, offset, size);
             got <= want && Filled(d, bs, offset, b, got) && (got < want ==> !Readable(d, bs, offset + got))
    ensures got == Clip(fileSize, offset, size) <= |b|
    ensures got > 0 ==> offset + got <= |data| && b[..got] == data[offset..offset + got]
  {
    hide Linked, Content, Filled, Readable, Holds, DataWritten, FsOf;
    ContentIsData(p, cs, words, data);
    var want := Clip(fileSize, offset, size);
    if want > 0 { FilledFromHeld(Content(FsOf(p), cs[0]), 512 * p.secs, |cs|, data, offset, b, got, want); }
  }

  // ---- Directories -------------------------------------------------------------------------

  predicate EntryFits(e: Entry) { |e.name| == 11 && e.attr < 256 && e.cluster / U16 < Pow256(2) && e.size < Pow256(4) }

  /** A directory entry; created and written are its two time stamps with what is between
      them and the fields used. */
  function EntryBytes(e: Entry, created: seq<Byte>, written: seq<Byte>): seq<Byte>
    requires EntryFits(e) && |created| == 8 && |written| == 4
  {
    Pows();
    e.name + ([e.attr] + (created + (Le(e.cluster / U16, 2) + (written + (Le(e.cluster % U16, 2) + Le(e.size, 4))))))
  }

  ghost predicate EntryLies(b: seq<Byte>, i: nat, e: Entry)
  {
    EntryFits(e) && exists created: seq<Byte>, written: seq<Byte> ::
      |created| == 8 && |written| == 4 && Lies(b, 32 * i, EntryBytes(e, created, written))
  }

  lemma ReadsEntry(b: seq<Byte>, i: nat, e: Entry, created: seq<Byte>, written: seq<Byte>)
    requires EntryFits(e) && |created| == 8 && |written| == 4 && Lies(b, 32 * i, EntryBytes(e, created, written))
    ensures HasEntry(b, i) && EntryAt(b, i) == e
  {
    Pows();
    var o := 32 * i;
    DivMod(e.cluster, U16);
    hide Le, Lies, Get16, Get32, Pow256;
    EntryParts(b, o, e.name, e.attr, created, Le(e.cluster / U16, 2), written, Le(e.cluster % U16, 2), Le(e.size, 4));
    Reads16(b, o + 20, e.cluster / U16);
    Reads16(b, o + 26, e.cluster % U16);
    Reads32(b, o + 28, e.size);
  }

  lemma EntryParts(b: seq<Byte>, o: nat, name: seq<Byte>, attr: Byte, created: seq<Byte>, hi: seq<Byte>, written: seq<Byte>,
                   lo: seq<Byte>, size: seq<Byte>)
    requires |name| == 11 && |created| == 8 && |hi| == 2 && |written| == 4 && |lo| == 2 && |size| == 4
    requires Lies(b, o, name + ([attr] + (created + (hi + (written + (lo + size))))))
    ensures o + 32 <= |b| && b[o..o + 11] == name && b[o + 11] == attr
    ensures Lies(b, o + 20, hi) && Lies(b, o + 26, lo) && Lies(b, o + 28, size)
  {
    hide Lies;
    LiesParts(b, o, name, [attr] + (created + (hi + (written + (lo + size)))));
    LiesParts(b, o + 11, [attr], created + (hi + (written + (lo + size))));
    LiesParts(b, o + 12, created, hi + (written + (lo + size)));
    LiesParts(b, o + 20, hi, written + (lo + size));
    LiesParts(b, o + 22, written, lo + size);
    LiesParts(b, o + 26, lo, size);
    LiesIs(b, o, name);
    LiesIs(b, o + 28, size);
    LiesAt(b, o + 11, [attr], 0);
  }

  lemma ReadsEntryAt(b: seq<Byte>, i: nat, e: Entry)
    requires EntryLies(b, i, e)
    ensures HasEntry(b, i) && EntryAt(b, i) == e && |e.name| == 11
  {
    hide EntryBytes, Lies, EntryAt;
    var created: seq<Byte>, written: seq<Byte> :| |created| == 8 && |written| == 4 && Lies(b, 32 * i, EntryBytes(e, created, written));
    ReadsEntry(b, i, e, created, written);
  }

  /** A cluster of a directory: the entries es in order, then the end marker unless they
      fill it. */
  ghost predicate EntriesLie(b: seq<Byte>, es: seq<Entry>)
  {
    && (forall i :: 0 <= i < |es| ==> EntryLies(b, i, es[i]) && es[i].name[0] != 0)
    && 32 * |es| <= |b| && |b| % 32 == 0 && (32 * |es| < |b| ==> b[32 * |es|] == 0)
  }

  /** The entries a directory shows: not deleted, no long-name part and no label. */
  function Shown(es: seq<Entry>): seq<Entry>
  {
    if es == [] then []
    else if |es[0].name| == 11 && es[0].name[0] != 0xE5 && es[0].attr != 0x0F && es[0].attr / 8 % 2 == 0 then [es[0]] + Shown(es[1..])
    else Shown(es[1..])
  }

  lemma {:induction false} ScanIsShown(b: seq<Byte>, es: seq<Entry>, i: nat)
    requires EntriesLie(b, es) && i <= |es|
    ensures Scan(b, i) == Shown(es[i..]) && (Marked(b, i) <==> 32 * |es| < |b|)
    decreases |es| - i
  {
    hide EntryAt, EntryLies, Scan, Marked;
    if i < |es| {
      assert es[i..][1..] == es[i + 1..];
      ReadsEntryAt(b, i, es[i]);
      ScanStep(b, i);
      ScanIsShown(b, es, i + 1);
    } else if 32 * |es| < |b| {
      FirstByte(b, i);
      ScanStep(b, i);
    } else {
      ScanEnd(b, i);
    }
  }

  lemma FirstByte(b: seq<Byte>, i: nat)
    requires 32 * i < |b| && |b| % 32 == 0
    ensures HasEntry(b, i) && EntryAt(b, i).name[0] == b[32 * i]
  {
  }

  /** The clusters of a directory from the k-th on. */
  ghost predicate DirWritten(p: Place, cs: seq<nat>, bs: seq<seq<Byte>>, ess: seq<seq<Entry>>)
  {
    && |cs| == |bs| == |ess|
    && (forall k :: 0 <= k < |cs| ==> ClusterHolds(p, cs[k], bs[k]) && EntriesLie(bs[k], ess[k]))
    && (forall k :: 0 <= k < |cs| - 1 ==> 32 * |ess[k]| == |bs[k]|)
  }

  function ShownAll(ess: seq<seq<Entry>>): seq<Entry> { if ess == [] then [] else Shown(ess[0]) + ShownAll(ess[1..]) }

  /** The directory from cluster c on ends within n clusters and has the entries es. */
  ghost predicate Lists(fs: Fs, c: nat, n: nat, es: seq<Entry>) { DirEnds(fs, c, n) && Dir(fs, c, n) == es }

  /** Listing a directory that was written to an image shows its entries in order, over all
      its clusters. */
  lemma {:induction false} DirIsShown(p: Place, cs: seq<nat>, words: seq<nat>, bs: seq<seq<Byte>>, ess: seq<seq<Entry>>, k: nat)
    requires Linked(p, cs, words) && DirWritten(p, cs, bs, ess) && k < |cs|
    ensures Lists(FsOf(p), cs[k], |cs| - k, ShownAll(ess[k..]))
    decreases |cs| - k
  {
    hide Linked, ClusterHolds, EntriesLie, FsOf, Scan, Marked, Next, ReadCluster, Shown;
    var fs := FsOf(p);
    LinkedNext(p, cs, words, k);
    ReadsCluster(p, cs[k], bs[k]);
    ScanIsShown(bs[k], ess[k], 0);
    assert ess[k][0..] == ess[k];
    assert ess[k..][1..] == ess[k + 1..];
    if k + 1 < |cs| {
      DirIsShown(p, cs, words, bs, ess, k + 1);
    } else {
      LastCluster(fs, cs[k], bs[k]);
    }
  }

  lemma LastCluster(fs: Fs, c: nat, b: seq<Byte>)
    requires c < CHAIN_END && Next(fs, c) >= CHAIN_END && ReadCluster(fs, c) == Some(b)
    ensures DirEnds(fs, c, 1) && Dir(fs, c, 1) == Scan(b, 0)
  {
  }

  // ---- Names -------------------------------------------------------------------------------

  function Padded(w: seq<Byte>, n: nat): (r: seq<Byte>)
    requires |w| <= n
    ensures |r| == n
  {
    w + seq(n - |w|, _ => 0x20)
  }

  lemma {:induction false} BlankAt(src: seq<Byte>, i: nat, k: nat, hi: nat)
    requires i <= k <= hi <= |src| && (forall j :: i <= j < k ==> src[j] != 0x20) && (k < hi ==> src[k] == 0x20)
    ensures Blank(src, i, hi) == k
    decreases k - i
  {
    if i < k { BlankAt(src, i + 1, k, hi); }
  }

  /** A name of up to eight and an extension of up to three bytes, padded with spaces on
      disk: the dot comes back exactly with an extension. */
  lemma ReadsName(base: seq<Byte>, ext: seq<Byte>)
    requires |base| <= 8 && |ext| <= 3 && 0x20 !in base && 0x20 !in ext
    ensures Name83(Padded(base, 8) + Padded(ext, 3)) == base + if ext == [] then [] else [0x2E] + ext
  {
    var src := Padded(base, 8) + Padded(ext, 3);
    BlankAt(src, 0, |base|, 8);
    BlankAt(src, 8, 8 + |ext|, 11);
    assert src[..|base|] == base;
    assert src[8..8 + |ext|] == ext;
  }
}
