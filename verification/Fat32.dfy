/**
 fs/fat32.c: following the cluster chain, listing and searching a directory, and
 reading a file.
 */
module Fat32 {
  import opened Arith
  import opened Options
  import opened Sizes
  import opened Bytes
  import opened FileBlocks

  const CHAIN_END: nat := 0x0FFF_FFF8

  /** secs: sectors per cluster. */
  datatype Fs = Fs(disk: Disk, fatLba: nat, dataLba: nat, secs: nat)

  ghost predicate FsOk(fs: Fs) { DiskOk(fs.disk) && 0 < fs.secs < 256 }

  function ClusterSize(fs: Fs): nat { fs.secs * SECTOR }

  /** First sector of a cluster, with the 32-bit arithmetic of the source. */
  function ClusterLba(dataLba: nat, c: nat, secs: nat): nat { (dataLba + (c - 2) % U32 * secs) % U32 }

  function ReadCluster(fs: Fs, c: nat): Option<seq<Byte>> { fs.disk(ClusterLba(fs.dataLba, c, fs.secs), fs.secs) }

  /** fat32_get_next_cluster; an unreadable table sector ends the chain. */
  function Next(fs: Fs, c: nat): nat
  {
    var off := c * 4 % U32;
    match fs.disk((fs.fatLba + off / SECTOR) % U32, 1)
    case None => 0x0FFF_FFFF
    case Some(b) => if off % SECTOR + 4 <= |b| then Get32(b, off % SECTOR) % 0x1000_0000 else 0x0FFF_FFFF
  }

  // ---- Reading ---------------------------------------------------------------------------

  /** Cluster k of a file, None behind the end of its chain. */
  function Kth(fs: Fs, first: nat, k: nat): Option<nat>
  {
    if k == 0 then Some(first)
    else match Kth(fs, first, k - 1)
      case None => None
      case Some(c) => if Next(fs, c) >= CHAIN_END then None else Some(Next(fs, c))
  }

  function Content(fs: Fs, first: nat): Blocks
  {
    k => match Kth(fs, first, k) case None => None case Some(c) => ReadCluster(fs, c)
  }

  /** cs lists the chain from its first cluster to the one marked as last. */
  predicate Chain(fs: Fs, cs: seq<nat>)
  {
    && cs != []
    && (forall i :: 0 <= i < |cs| - 1 ==> Linked(fs, cs, i))
    && Next(fs, cs[|cs| - 1]) >= CHAIN_END
  }

  predicate Linked(fs: Fs, cs: seq<nat>, i: nat) { i + 1 < |cs| && Next(fs, cs[i]) == cs[i + 1] < CHAIN_END }

  /** The blocks of a file are the clusters of its chain, in order, and no more. */
  lemma {:induction false} ContentOfChain(fs: Fs, cs: seq<nat>, k: nat)
    requires Chain(fs, cs)
    ensures Kth(fs, cs[0], k) == if k < |cs| then Some(cs[k]) else None
    ensures Content(fs, cs[0])(k) == if k < |cs| then ReadCluster(fs, cs[k]) else None
  {
    hide Next, ReadCluster;
    if k > 0 {
      ContentOfChain(fs, cs, k - 1);
      if k < |cs| { assert Linked(fs, cs, k - 1); }
    }
  }

  /** The file as its cluster chain describes it. */
  function ChainBlocks(fs: Fs, cs: seq<nat>): Blocks { (k: nat) => if k < |cs| then ReadCluster(fs, cs[k]) else None }

  /** What a read delivers is the slice [offset, offset + got) of the clusters of the
      chain, one after the other. */
  lemma ReadIsSlice(fs: Fs, cs: seq<nat>, offset: nat, b: seq<Byte>, got: nat)
    requires FsOk(fs) && Chain(fs, cs) && ClusterSize(fs) > 0
    requires Filled(Content(fs, cs[0]), ClusterSize(fs), offset, b, got) && got > 0
    ensures got <= |b| && offset + got <= |FileBytes(ChainBlocks(fs, cs), ClusterSize(fs), |cs|)| == ClusterSize(fs) * |cs|
    ensures b[..got] == FileBytes(ChainBlocks(fs, cs), ClusterSize(fs), |cs|)[offset..offset + got]
  {
    hide Next, ReadCluster, Content, FileBytes, BlockIx, BlockOff, Kth;
    ClusterFacts(fs);
    hide FsOk, ClusterSize;
    var d, e, bs := Content(fs, cs[0]), ChainBlocks(fs, cs), ClusterSize(fs);
    forall k: nat ensures d(k) == e(k) && (d(k).Some? ==> |d(k).value| == bs) {
      ContentOfChain(fs, cs, k);
    }
    var last := offset + got - 1;
    assert FilledAt(d, bs, offset, got - 1, b[got - 1]);
    OffWithin(bs, last);
    assert BlockIx(bs, last) < |cs|;
    MulMonotone(bs, BlockIx(bs, last) + 1, |cs|);
    MulDistributes(bs, BlockIx(bs, last), 1);
    FilledIsSlice(d, bs, offset, b, got, |cs|);
    SameBytes(d, e, bs, |cs|);
  }

  lemma {:induction false} KthNone(fs: Fs, first: nat, k: nat, m: nat)
    requires k <= m && Kth(fs, first, k).None?
    ensures Kth(fs, first, m).None?
  {
    if k < m { KthNone(fs, first, k, m - 1); }
  }

  lemma KthNext(fs: Fs, first: nat, k: nat, c: nat)
    requires Kth(fs, first, k) == Some(c)
    ensures Kth(fs, first, k + 1) == if Next(fs, c) >= CHAIN_END then None else Some(Next(fs, c))
    ensures Content(fs, first)(k) == ReadCluster(fs, c)
    ensures Next(fs, c) >= CHAIN_END ==> Content(fs, first)(k + 1) == None
  {
  }

  /** The loop of fat32_read up to the cluster of the offset. */
  method SkipTo(fs: Fs, first: nat, skip: nat) returns (c: Option<nat>)
    ensures c == Kth(fs, first, skip)
  {
    hide Next, ReadCluster;
    var cur := first;
    for i := 0 to skip
      invariant Kth(fs, first, i) == Some(cur)
    {
      KthNext(fs, first, i, cur);
      cur := Next(fs, cur);
      if cur >= CHAIN_END {
        KthNone(fs, first, i + 1, skip);
        return None;
      }
    }
    return Some(cur);
  }

  lemma ClusterFacts(fs: Fs)
    requires FsOk(fs)
    ensures ClusterSize(fs) > 0
    ensures forall c: nat :: ReadCluster(fs, c).Some? ==> |ReadCluster(fs, c).value| == ClusterSize(fs)
  {
  }

  /** fat32_read: bytes [offset, offset + got) of the file arrive in order, and got
      is less than the clipped size only if the cluster of the first missing
      byte is behind the end of the chain or cannot be read. */
  method Read(fs: Fs, isFile: bool, first: nat, fileSize: nat, offset: nat, size: nat, buffer: array<Byte>) returns (got: nat)
    requires FsOk(fs) && fileSize < U32 && offset + size < U64 && Clip(fileSize, offset, size) <= buffer.Length
    modifies buffer
    ensures ClusterSize(fs) > 0
    ensures got <= Clip(fileSize, offset, size) && Filled(Content(fs, first), ClusterSize(fs), offset, buffer[..], got)
    ensures forall i :: got <= i < buffer.Length ==> buffer[i] == old(buffer[i])
    ensures got < Clip(fileSize, offset, size) ==> !isFile || !Readable(Content(fs, first), ClusterSize(fs), offset + got)
  {
    hide FsOk, Filled, BlockIx, BlockOff, ClusterSize, ReadCluster, Next, Kth, Content, Readable, AtCluster;
    ClusterFacts(fs);
    var cs := ClusterSize(fs);
    NoneFilled(Content(fs, first), cs, offset, buffer[..]);
    got := 0;
    if !isFile || offset >= fileSize {
      return;
    }
    var want := size;
    if offset + size > fileSize {
      want := fileSize - offset;
    }
    var skip := BlockIx(cs, offset);
    var c := SkipTo(fs, first, skip);
    if c.None? {
      PastChain(fs, first, cs, offset);
      return;
    }
    var cur: nat := c.value;
    ghost var k: nat := skip;
    var o: nat := BlockOff(cs, offset);
    OffWithin(cs, offset);
    Start(fs, first, cs, offset, cur);
    while got < want
      invariant got <= want && Filled(Content(fs, first), cs, offset, buffer[..], got)
      invariant forall i :: got <= i < buffer.Length ==> buffer[..][i] == old(buffer[..])[i]
      invariant got < want ==> AtCluster(fs, first, cs, offset + got, k, cur, o)
    {
      var data := ReadCluster(fs, cur);
      Here(fs, first, cs, offset + got, k, cur, o);
      if data.None? {
        break;
      }
      var n := cs - o;
      if n > want - got {
        n := want - got;
      }
      FillStep(Content(fs, first), cs, offset, buffer[..], got, data.value, o, n);
      CopyInto(buffer, got, data.value[o..o + n]);
      if got + n < want { Onward(fs, first, cs, offset + got, k, cur, o); }
      got := got + n;
      o := 0;
      if got < want {
        cur := Next(fs, cur);
        k := k + 1;
        if cur >= CHAIN_END {
          break;
        }
      }
    }
  }

  /** Byte pos of the file is byte o of cluster cur, the k-th of its chain. */
  ghost predicate AtCluster(fs: Fs, first: nat, cs: nat, pos: nat, k: nat, cur: nat, o: nat)
  {
    (cs > 0 && o < cs && Kth(fs, first, k) == Some(cur) && k == BlockIx(cs, pos) && o == BlockOff(cs, pos)) == true
  }

  lemma Start(fs: Fs, first: nat, cs: nat, pos: nat, cur: nat)
    requires cs > 0 && Kth(fs, first, BlockIx(cs, pos)) == Some(cur)
    ensures AtCluster(fs, first, cs, pos, BlockIx(cs, pos), cur, BlockOff(cs, pos))
  {
    OffWithin(cs, pos);
  }

  lemma Here(fs: Fs, first: nat, cs: nat, pos: nat, k: nat, cur: nat, o: nat)
    requires AtCluster(fs, first, cs, pos, k, cur, o)
    ensures cs > 0 && o < cs && o == BlockOff(cs, pos) && Content(fs, first)(BlockIx(cs, pos)) == ReadCluster(fs, cur)
    ensures Readable(Content(fs, first), cs, pos) == ReadCluster(fs, cur).Some?
  {
    KthNext(fs, first, k, cur);
  }

  /** The byte after the rest of the cluster is the first of the next one. */
  lemma Onward(fs: Fs, first: nat, cs: nat, pos: nat, k: nat, cur: nat, o: nat)
    requires AtCluster(fs, first, cs, pos, k, cur, o)
    ensures Next(fs, cur) < CHAIN_END ==> AtCluster(fs, first, cs, pos + (cs - o), k + 1, Next(fs, cur), 0)
    ensures Next(fs, cur) >= CHAIN_END ==> !Readable(Content(fs, first), cs, pos + (cs - o))
  {
    hide Next, Kth, Content, BlockIx, BlockOff;
    KthNext(fs, first, k, cur);
    NextBlock(cs, pos);
  }

  lemma PastChain(fs: Fs, first: nat, cs: nat, pos: nat)
    requires cs > 0 && Kth(fs, first, BlockIx(cs, pos)).None?
    ensures !Readable(Content(fs, first), cs, pos)
  {
  }

  lemma NextBlock(bs: nat, pos: nat)
    requires bs > 0 && BlockOff(bs, pos) < bs
    ensures BlockIx(bs, pos + (bs - BlockOff(bs, pos))) == BlockIx(bs, pos) + 1
    ensures BlockOff(bs, pos + (bs - BlockOff(bs, pos))) == 0
  {
    OffWithin(bs, pos);
    MulDistributes(bs, BlockIx(bs, pos), 1);
    DivModUnique(pos + (bs - BlockOff(bs, pos)), bs, BlockIx(bs, pos) + 1, 0);
  }

  // ---- Directories -----------------------------------------------------------------------

  /** A 32-byte directory entry. */
  datatype Entry = Entry(name: seq<Byte>, attr: nat, cluster: nat, size: nat)

  predicate HasEntry(b: seq<Byte>, i: nat) { 32 * i + 32 <= |b| }

  function EntryAt(b: seq<Byte>, i: nat): (e: Entry)
    requires HasEntry(b, i)
    ensures |e.name| == 11
  {
    var o := 32 * i;
    Entry(b[o..o + 11], b[o + 11] as nat, Get16(b, o + 26) + Get16(b, o + 20) * U16, Get32(b, o + 28))
  }

  /** Deleted entries, long-name parts and volume labels are skipped. */
  predicate Skipped(e: Entry)
    requires |e.name| == 11
  {
    e.name[0] == 0xE5 || e.attr == 0x0F || e.attr / 8 % 2 == 1
  }

  predicate IsDir(e: Entry) { e.attr / 16 % 2 == 1 }

  /** Entries from i on up to the end marker or the end of the cluster. */
  function Scan(b: seq<Byte>, i: nat): seq<Entry>
    decreases |b| - i
  {
    if !HasEntry(b, i) || EntryAt(b, i).name[0] == 0 then []
    else if Skipped(EntryAt(b, i)) then Scan(b, i + 1)
    else [EntryAt(b, i)] + Scan(b, i + 1)
  }

  /** An end marker is met from entry i on. */
  predicate Marked(b: seq<Byte>, i: nat)
    decreases |b| - i
  {
    HasEntry(b, i) && (EntryAt(b, i).name[0] == 0 || Marked(b, i + 1))
  }

  /** The scan of a directory from cluster c ends within n more clusters. */
  ghost predicate DirEnds(fs: Fs, c: nat, n: nat)
    decreases n
  {
    c >= CHAIN_END || ReadCluster(fs, c).None? || Marked(ReadCluster(fs, c).value, 0) || (n > 0 && DirEnds(fs, Next(fs, c), n - 1))
  }

  /** All entries of a directory in order. */
  ghost function Dir(fs: Fs, c: nat, n: nat): seq<Entry>
    requires DirEnds(fs, c, n)
    decreases n
  {
    if c >= CHAIN_END || ReadCluster(fs, c).None? then []
    else if Marked(ReadCluster(fs, c).value, 0) then Scan(ReadCluster(fs, c).value, 0)
    else Scan(ReadCluster(fs, c).value, 0) + Dir(fs, Next(fs, c), n - 1)
  }

  /** The scan has seen the entries done of all and stands at cluster c. */
  ghost predicate Seen(fs: Fs, all: seq<Entry>, done: seq<Entry>, c: nat, n: nat)
  {
    (DirEnds(fs, c, n) && all == done + Dir(fs, c, n)) == true
  }

  /** es is the part of all behind done. */
  ghost predicate Part(all: seq<Entry>, done: seq<Entry>, es: seq<Entry>)
  {
    (|done| + |es| <= |all| && forall j :: |done| <= j < |done| + |es| ==> all[j] == es[j - |done|]) == true
  }

  lemma SeenStep(fs: Fs, all: seq<Entry>, done: seq<Entry>, c: nat, n: nat)
    requires Seen(fs, all, done, c, n)
    ensures c >= CHAIN_END || ReadCluster(fs, c).None? ==> |all| == |done|
    ensures c < CHAIN_END && ReadCluster(fs, c).Some? ==>
              var es := Scan(ReadCluster(fs, c).value, 0);
              && Part(all, done, es)
              && if Marked(ReadCluster(fs, c).value, 0) then |all| == |done| + |es|
                 else n > 0 && Seen(fs, all, done + es, Next(fs, c), n - 1)
  {
    hide Scan, Marked, ReadCluster, Next;
  }

  const SPACE: Byte := 0x20
  const DOT: Byte := 0x2E

  /** First space of src in [i, hi), or hi. */
  function Blank(src: seq<Byte>, i: nat, hi: nat): (k: nat)
    requires i <= hi <= |src|
    ensures i <= k <= hi && (k < hi ==> src[k] == SPACE) && forall j :: i <= j < k ==> src[j] != SPACE
    decreases hi - i
  {
    if i == hi || src[i] == SPACE then i else Blank(src, i + 1, hi)
  }

  /** The 8.3 name without padding, and with a dot if there is an extension. */
  function Name83(src: seq<Byte>): seq<Byte>
    requires |src| == 11
  {
    src[..Blank(src, 0, 8)] + if src[8] != SPACE then [DOT] + src[8..Blank(src, 8, 11)] else []
  }

  /** What C string functions see of s. */
  function CString(s: seq<Byte>): (c: seq<Byte>)
    ensures |c| <= |s| && c == s[..|c|] && 0 !in c && (|c| < |s| ==> s[|c|] == 0)
  {
    if s == [] || s[0] == 0 then [] else [s[0]] + CString(s[1..])
  }

  /** One of the two loops of parse_fat32_name. */
  method UpToBlank(src: seq<Byte>, lo: nat, hi: nat) returns (part: seq<Byte>)
    requires lo <= hi <= |src|
    ensures part == src[lo..Blank(src, lo, hi)]
  {
    part := [];
    var i := lo;
    while i < hi && src[i] != SPACE
      invariant lo <= i <= hi && part == src[lo..i] && Blank(src, i, hi) == Blank(src, lo, hi)
    {
      part := part + [src[i]];
      assert src[lo..i + 1] == src[lo..i] + [src[i]];
      i := i + 1;
    }
  }

  /** parse_fat32_name. */
  method ParseName(src: seq<Byte>) returns (dest: seq<Byte>)
    requires |src| == 11
    ensures dest == Name83(src) && |dest| <= 12
  {
    dest := UpToBlank(src, 0, 8);
    if src[8] != SPACE {
      var ext := UpToBlank(src, 8, 11);
      dest := dest + ([DOT] + ext);
    }
  }

  function NameOf(e: Entry): seq<Byte> requires |e.name| == 11 { CString(Name83(e.name)) }

  predicate EntriesOk(es: seq<Entry>) { (forall i :: 0 <= i < |es| ==> |es[i].name| == 11) == true }

  lemma {:induction false} ScanOk(b: seq<Byte>, i: nat)
    ensures EntriesOk(Scan(b, i))
    decreases |b| - i
  {
    if HasEntry(b, i) { ScanOk(b, i + 1); }
  }

  lemma {:induction false} DirOk(fs: Fs, c: nat, n: nat)
    requires DirEnds(fs, c, n)
    ensures EntriesOk(Dir(fs, c, n))
    decreases n
  {
    if c < CHAIN_END && ReadCluster(fs, c).Some? {
      ScanOk(ReadCluster(fs, c).value, 0);
      if !Marked(ReadCluster(fs, c).value, 0) { DirOk(fs, Next(fs, c), n - 1); }
    }
  }

  datatype Dirent = Dirent(name: seq<Byte>, ino: nat, isDir: bool)
  datatype Node = Node(name: seq<Byte>, isDir: bool, length: nat, first: nat)

  function DirentOf(e: Entry): Dirent requires |e.name| == 11 { Dirent(NameOf(e), e.cluster, IsDir(e)) }

  function NodeOf(e: Entry): Node requires |e.name| == 11 { Node(NameOf(e), IsDir(e), e.size, e.cluster) }

  /** The inner loop of fat32_readdir: entry number index of the directory, when
      count entries were seen before this cluster. */
  method NthInCluster(b: seq<Byte>, count: nat, index: nat) returns (hit: Option<Entry>, seen: nat, stop: bool)
    requires count <= index
    ensures hit == if index - count < |Scan(b, 0)| then Some(Scan(b, 0)[index - count]) else None
    ensures hit.None? ==> seen == count + |Scan(b, 0)| && stop == Marked(b, 0)
  {
    hide Scan, Marked, Skipped, EntryAt;
    seen := count;
    ghost var done: seq<Entry> := [];
    for i := 0 to |b| / 32
      invariant Scan(b, 0) == done + Scan(b, i) && Marked(b, 0) == Marked(b, i) && seen == count + |done| <= index
    {
      var e := EntryAt(b, i);
      ScanStep(b, i);
      if e.name[0] == 0 {
        return None, seen, true;
      }
      if !Skipped(e) {
        if seen == index {
          return Some(e), seen, false;
        }
        seen := seen + 1;
        done := done + [e];
      }
    }
    ScanEnd(b, |b| / 32);
    return None, seen, false;
  }

  /** fat32_readdir. */
  method ReadDir(fs: Fs, first: nat, index: nat, ghost n: nat) returns (r: Option<Dirent>)
    requires FsOk(fs) && DirEnds(fs, first, n)
    ensures EntriesOk(Dir(fs, first, n))
    ensures r == if index < |Dir(fs, first, n)| then Some(DirentOf(Dir(fs, first, n)[index])) else None
  {
    hide Scan, Marked, ReadCluster, Next, Name83, CString, Dir, DirEnds, Seen, Part;
    DirOk(fs, first, n);
    ghost var all := Dir(fs, first, n);
    var cur: nat, count := first, 0;
    ghost var m: nat := n;
    ghost var done: seq<Entry> := [];
    SeenFirst(fs, first, n);
    while cur < CHAIN_END
      invariant Seen(fs, all, done, cur, m) && count == |done| <= index
      decreases m
    {
      var data := ReadCluster(fs, cur);
      SeenStep(fs, all, done, cur, m);
      if data.None? {
        return None;
      }
      var hit, seen, stop := NthInCluster(data.value, count, index);
      PartAt(all, done, Scan(data.value, 0), index);
      if hit.Some? {
        return Some(Dirent(CString(Name83(hit.value.name)), hit.value.cluster, IsDir(hit.value)));
      }
      if stop {
        return None;
      }
      done := done + Scan(data.value, 0);
      cur, count, m := Next(fs, cur), seen, m - 1;
    }
    SeenStep(fs, all, done, cur, m);
    return None;
  }

  lemma SeenFirst(fs: Fs, c: nat, n: nat)
    requires DirEnds(fs, c, n)
    ensures Seen(fs, Dir(fs, c, n), [], c, n)
  {
  }

  lemma PartAt(all: seq<Entry>, done: seq<Entry>, es: seq<Entry>, i: nat)
    requires Part(all, done, es) && |done| <= i
    ensures |done| + |es| <= |all| && (i < |done| + |es| ==> all[i] == es[i - |done|])
  {
  }

  /** Index of the first entry with the name, or the number of entries. */
  function Named(es: seq<Entry>, name: seq<Byte>): (k: nat)
    requires EntriesOk(es)
    ensures k <= |es|
  {
    if es == [] || NameOf(es[0]) == name then 0 else 1 + Named(es[1..], name)
  }

  lemma {:induction false} NamedIs(es: seq<Entry>, name: seq<Byte>)
    requires EntriesOk(es)
    ensures Named(es, name) < |es| ==> NameOf(es[Named(es, name)]) == name
    ensures forall j :: 0 <= j < Named(es, name) ==> NameOf(es[j]) != name
  {
    hide NameOf;
    if es != [] && NameOf(es[0]) != name {
      var r := es[1..];
      assert forall j :: 0 < j < |es| ==> es[j] == r[j - 1];
      NamedIs(r, name);
    }
  }

  /** None of the first k entries has the name. */
  ghost predicate NoneNamed(es: seq<Entry>, k: nat, name: seq<Byte>)
    requires EntriesOk(es) && k <= |es|
  {
    (forall j :: 0 <= j < k ==> NameOf(es[j]) != name) == true
  }

  lemma ScanStep(b: seq<Byte>, i: nat)
    requires HasEntry(b, i)
    ensures EntryAt(b, i).name[0] == 0 ==> Scan(b, i) == [] && Marked(b, i)
    ensures EntryAt(b, i).name[0] != 0 ==>
              && Marked(b, i) == Marked(b, i + 1)
              && Scan(b, i) == if Skipped(EntryAt(b, i)) then Scan(b, i + 1) else [EntryAt(b, i)] + Scan(b, i + 1)
  {
  }

  lemma ScanEnd(b: seq<Byte>, i: nat)
    requires !HasEntry(b, i)
    ensures Scan(b, i) == [] && !Marked(b, i)
  {
  }

  /** The inner loop of fat32_finddir. */
  method FindInCluster(b: seq<Byte>, name: seq<Byte>) returns (hit: Option<Entry>, stop: bool)
    ensures EntriesOk(Scan(b, 0))
    ensures hit == if Named(Scan(b, 0), name) < |Scan(b, 0)| then Some(Scan(b, 0)[Named(Scan(b, 0), name)]) else None
    ensures hit.None? ==> stop == Marked(b, 0)
  {
    hide Name83, CString, Scan, Skipped, EntryAt, Named, NoneNamed, EntriesOk, Upto;
    ScanOk(b, 0);
    ghost var all := Scan(b, 0);
    ghost var k: nat := 0;
    UptoStart(b);
    NoneYet(all, name);
    for i := 0 to |b| / 32
      invariant Upto(b, all, k, i) && k <= |all| && NoneNamed(all, k, name)
    {
      var e := EntryAt(b, i);
      UptoStep(b, all, k, i);
      if e.name[0] == 0 {
        NamedAt(all, name, k);
        return None, true;
      }
      if !Skipped(e) {
        var parsed := ParseName(e.name);
        if CString(parsed) == name {
          NamedAt(all, name, k);
          return Some(e), false;
        }
        NoneNext(all, k, name);
        k := k + 1;
      }
    }
    UptoEnd(b, all, k, |b| / 32);
    NamedAt(all, name, k);
    return None, false;
  }

  /** Entry i of the cluster comes after k of all its files. */
  ghost predicate Upto(b: seq<Byte>, all: seq<Entry>, k: nat, i: nat)
  {
    (k <= |all| && all[k..] == Scan(b, i) && Marked(b, 0) == Marked(b, i)) == true
  }

  lemma UptoStart(b: seq<Byte>)
    ensures Upto(b, Scan(b, 0), 0, 0)
  {
  }

  lemma UptoStep(b: seq<Byte>, all: seq<Entry>, k: nat, i: nat)
    requires Upto(b, all, k, i) && HasEntry(b, i)
    ensures var e := EntryAt(b, i);
            if e.name[0] == 0 then k == |all| && Marked(b, 0)
            else if Skipped(e) then Upto(b, all, k, i + 1)
            else k < |all| && all[k] == e && Upto(b, all, k + 1, i + 1)
  {
    hide Scan, Marked, EntryAt, Skipped;
    ScanStep(b, i);
    var rest := all[k..];
    if EntryAt(b, i).name[0] != 0 && !Skipped(EntryAt(b, i)) {
      assert rest[0] == all[k] && rest[1..] == all[k + 1..];
    }
  }

  lemma UptoEnd(b: seq<Byte>, all: seq<Entry>, k: nat, i: nat)
    requires Upto(b, all, k, i) && !HasEntry(b, i)
    ensures k == |all| && !Marked(b, 0)
  {
    ScanEnd(b, i);
  }

  lemma NoneYet(es: seq<Entry>, name: seq<Byte>)
    requires EntriesOk(es)
    ensures NoneNamed(es, 0, name)
  {
  }

  lemma NoneNext(es: seq<Entry>, k: nat, name: seq<Byte>)
    requires EntriesOk(es) && k < |es| && NoneNamed(es, k, name) && |es[k].name| == 11 && NameOf(es[k]) != name
    ensures NoneNamed(es, k + 1, name)
  {
  }

  lemma {:induction false} NamedAt(es: seq<Entry>, name: seq<Byte>, k: nat)
    requires EntriesOk(es) && k <= |es| && (k < |es| ==> |es[k].name| == 11 && NameOf(es[k]) == name)
    requires NoneNamed(es, k, name)
    ensures Named(es, name) == k
  {
    hide Name83, CString;
    if k > 0 {
      assert NameOf(es[0]) != name;
      assert forall j :: 0 <= j < |es| - 1 ==> es[1..][j] == es[j + 1];
      NamedAt(es[1..], name, k - 1);
    }
  }

  /** fat32_finddir; name has no NUL byte, as a C string. */
  method FindDir(fs: Fs, first: nat, name: seq<Byte>, ghost n: nat) returns (r: Option<Node>)
    requires FsOk(fs) && DirEnds(fs, first, n)
    ensures EntriesOk(Dir(fs, first, n))
    ensures var es := Dir(fs, first, n); var k := Named(es, name);
            r == if k < |es| then Some(NodeOf(es[k])) else None
  {
    hide Scan, Marked, ReadCluster, Next, Name83, CString, Named, NoneNamed, EntriesOk, Dir, DirEnds, Seen, Part;
    DirOk(fs, first, n);
    ghost var all := Dir(fs, first, n);
    var cur: nat := first;
    ghost var m: nat := n;
    ghost var done: seq<Entry> := [];
    SeenFirst(fs, first, n);
    NoneYet(all, name);
    while cur < CHAIN_END
      invariant Seen(fs, all, done, cur, m) && |done| <= |all| && NoneNamed(all, |done|, name)
      decreases m
    {
      var data := ReadCluster(fs, cur);
      SeenStep(fs, all, done, cur, m);
      if data.None? {
        NamedAt(all, name, |done|);
        return None;
      }
      var hit, stop := FindInCluster(data.value, name);
      ghost var es := Scan(data.value, 0);
      Found(all, done, es, name);
      if hit.Some? {
        return Some(Node(CString(Name83(hit.value.name)), IsDir(hit.value), hit.value.size, hit.value.cluster));
      }
      if stop {
        return None;
      }
      done := done + es;
      cur, m := Next(fs, cur), m - 1;
    }
    SeenStep(fs, all, done, cur, m);
    NamedAt(all, name, |done|);
    return None;
  }

  /** A list of entries with no match before the part es. */
  lemma NamedIn(all: seq<Entry>, done: seq<Entry>, es: seq<Entry>, name: seq<Byte>)
    requires EntriesOk(all) && EntriesOk(es) && Part(all, done, es) && |done| <= |all| && NoneNamed(all, |done|, name)
    ensures var k := Named(es, name);
            && k <= |es| && |done| + |es| <= |all| && NoneNamed(all, |done| + k, name)
            && (k < |es| ==> all[|done| + k] == es[k] && |es[k].name| == 11 && NameOf(es[k]) == name)
  {
    hide Named, NameOf;
    var k := Named(es, name);
    NamedIs(es, name);
    forall j | 0 <= j < |done| + k ensures NameOf(all[j]) != name {
      if j >= |done| { assert all[j] == es[j - |done|]; }
    }
  }

  /** What the search in one more part of the list settles. */
  lemma Found(all: seq<Entry>, done: seq<Entry>, es: seq<Entry>, name: seq<Byte>)
    requires EntriesOk(all) && EntriesOk(es) && Part(all, done, es) && |done| <= |all| && NoneNamed(all, |done|, name)
    ensures Named(es, name) < |es| ==>
              Named(all, name) < |all| && all[Named(all, name)] == es[Named(es, name)] && |es[Named(es, name)].name| == 11
    ensures Named(es, name) == |es| ==> |done| + |es| <= |all| && NoneNamed(all, |done| + |es|, name)
    ensures Named(es, name) == |es| && |all| == |done| + |es| ==> Named(all, name) == |all|
  {
    hide Named, NameOf, NoneNamed, Part, EntriesOk;
    NamedIn(all, done, es, name);
    var k := Named(es, name);
    if k < |es| || |all| == |done| + |es| { NamedAt(all, name, |done| + k); }
  }

  /** A name is found exactly when listing the directory shows it, and then what is
      found is what the least such index shows. */
  lemma FindAgreesWithList(fs: Fs, first: nat, n: nat, name: seq<Byte>)
    requires DirEnds(fs, first, n)
    ensures EntriesOk(Dir(fs, first, n))
    ensures var es := Dir(fs, first, n); var k := Named(es, name);
            && (k < |es| <==> exists i :: 0 <= i < |es| && DirentOf(es[i]).name == name)
            && (k < |es| ==> DirentOf(es[k]).name == name && DirentOf(es[k]).ino == NodeOf(es[k]).first
                             && forall i :: 0 <= i < k ==> DirentOf(es[i]).name != name)
  {
    hide Named, NameOf, Dir;
    DirOk(fs, first, n);
    NamedIs(Dir(fs, first, n), name);
  }
}
