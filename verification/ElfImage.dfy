/**
 A program file as a linker lays it out: the ELF header and the program headers byte by
 byte.  The loader of syscall/elf_loader.c reads them back.
 */
module ElfImage {
  import opened Bytes
  import opened Images
  import opened ElfLoader

  // ---- Program headers ---------------------------------------------------------------------

  datatype Phdr = Phdr(kind: nat, flags: nat, offset: nat, vaddr: nat, paddr: nat, filesz: nat, memsz: nat, align: nat)

  predicate PhdrFits(h: Phdr)
  {
    && h.kind < Pow256(4) && h.flags < Pow256(4) && h.offset < Pow256(8) && h.vaddr < Pow256(8)
    && h.paddr < Pow256(8) && h.filesz < Pow256(8) && h.memsz < Pow256(8) && h.align < Pow256(8)
  }

  function PhdrBytes(h: Phdr): seq<Byte>
    requires PhdrFits(h)
  {
    Le(h.kind, 4) + (Le(h.flags, 4) + (Le(h.offset, 8) + (Le(h.vaddr, 8)
    + (Le(h.paddr, 8) + (Le(h.filesz, 8) + (Le(h.memsz, 8) + Le(h.align, 8)))))))
  }

  /** A segment is writable when the flag 2 is set. */
  function SegmentOf(h: Phdr): Segment { Segment(h.kind, h.flags / 2 % 2 == 1, h.offset, h.vaddr, h.filesz, h.memsz) }

  lemma Gets64(f: seq<Byte>, o: nat, x: nat)
    requires Field(f, o, 8, x)
    ensures o + 8 <= |f| && Get64(f, o) == x
  {
    Reads64(f, o, x);
  }

  lemma ReadsPhdr(f: seq<Byte>, o: nat, h: Phdr)
    requires PhdrFits(h) && Lies(f, o, PhdrBytes(h))
    ensures o + 56 <= |f| && SegmentAt(f, o) == SegmentOf(h)
  {
    hide Le, Lies, Get32, Get64, Pow256;
    PhdrParts(f, o, Le(h.kind, 4), Le(h.flags, 4), Le(h.offset, 8), Le(h.vaddr, 8), Le(h.paddr, 8), Le(h.filesz, 8), Le(h.memsz, 8), Le(h.align, 8));
    Reads32(f, o, h.kind);
    Reads32(f, o + 4, h.flags);
    Gets64(f, o + 8, h.offset);
    Gets64(f, o + 16, h.vaddr);
    Gets64(f, o + 32, h.filesz);
    Gets64(f, o + 40, h.memsz);
  }

  lemma PhdrParts(f: seq<Byte>, o: nat, kind: seq<Byte>, flags: seq<Byte>, offset: seq<Byte>, vaddr: seq<Byte>,
                  paddr: seq<Byte>, filesz: seq<Byte>, memsz: seq<Byte>, align: seq<Byte>)
    requires |kind| == |flags| == 4 && |offset| == |vaddr| == |paddr| == |filesz| == |memsz| == |align| == 8
    requires Lies(f, o, kind + (flags + (offset + (vaddr + (paddr + (filesz + (memsz + align)))))))
    ensures o + 56 <= |f| && Lies(f, o, kind) && Lies(f, o + 4, flags) && Lies(f, o + 8, offset) && Lies(f, o + 16, vaddr)
    ensures Lies(f, o + 32, filesz) && Lies(f, o + 40, memsz)
  {
    hide Lies;
    LiesParts(f, o, kind, flags + (offset + (vaddr + (paddr + (filesz + (memsz + align))))));
    LiesParts(f, o + 4, flags, offset + (vaddr + (paddr + (filesz + (memsz + align)))));
    LiesParts(f, o + 8, offset, vaddr + (paddr + (filesz + (memsz + align))));
    LiesParts(f, o + 16, vaddr, paddr + (filesz + (memsz + align)));
    LiesParts(f, o + 24, paddr, filesz + (memsz + align));
    LiesParts(f, o + 32, filesz, memsz + align);
    LiesParts(f, o + 40, memsz, align);
    LiesIs(f, o + 48, align);
  }

  // ---- The file header ---------------------------------------------------------------------

  /** What the loader reads of the header; ident, kind, version, sections and last are the
      fields it does not look at. */
  datatype Ehdr = Ehdr(entry: nat, phoff: nat, phentsize: nat, phnum: nat,
                       ident: seq<Byte>, kind: seq<Byte>, version: seq<Byte>, sections: seq<Byte>, last: seq<Byte>)

  predicate EhdrFits(x: Ehdr)
  {
    && x.entry < Pow256(8) && x.phoff < Pow256(8) && x.phentsize < Pow256(2) && x.phnum < Pow256(2)
    && |x.ident| == 11 && |x.kind| == 2 && |x.version| == 4 && |x.sections| == 14 && |x.last| == 6
  }

  function EhdrBytes(x: Ehdr): seq<Byte>
    requires EhdrFits(x)
  {
    [0x7F, 0x45, 0x4C, 0x46] + ([2] + (x.ident + (x.kind + ([0x3E, 0] + (x.version + (Le(x.entry, 8) + (Le(x.phoff, 8)
    + (x.sections + (Le(x.phentsize, 2) + (Le(x.phnum, 2) + x.last))))))))))
  }

  lemma EhdrParts(f: seq<Byte>, magic: seq<Byte>, bits: seq<Byte>, ident: seq<Byte>, kind: seq<Byte>, machine: seq<Byte>, version: seq<Byte>,
                  entry: seq<Byte>, phoff: seq<Byte>, sections: seq<Byte>, phentsize: seq<Byte>, phnum: seq<Byte>, last: seq<Byte>)
    requires |magic| == 4 && |bits| == 1 && |ident| == 11 && |kind| == 2 && |machine| == 2 && |version| == 4
    requires |entry| == 8 && |phoff| == 8 && |sections| == 14 && |phentsize| == 2 && |phnum| == 2 && |last| == 6
    requires Lies(f, 0, magic + (bits + (ident + (kind + (machine + (version + (entry + (phoff + (sections + (phentsize + (phnum + last)))))))))))
    ensures |f| >= 64 && Lies(f, 0, magic) && Lies(f, 4, bits) && Lies(f, 18, machine) && Lies(f, 24, entry) && Lies(f, 32, phoff)
    ensures Lies(f, 54, phentsize) && Lies(f, 56, phnum)
  {
    hide Lies;
    LiesParts(f, 0, magic, bits + (ident + (kind + (machine + (version + (entry + (phoff + (sections + (phentsize + (phnum + last))))))))));
    LiesParts(f, 4, bits, ident + (kind + (machine + (version + (entry + (phoff + (sections + (phentsize + (phnum + last)))))))));
    LiesParts(f, 5, ident, kind + (machine + (version + (entry + (phoff + (sections + (phentsize + (phnum + last))))))));
    LiesParts(f, 16, kind, machine + (version + (entry + (phoff + (sections + (phentsize + (phnum + last)))))));
    LiesParts(f, 18, machine, version + (entry + (phoff + (sections + (phentsize + (phnum + last))))));
    LiesParts(f, 20, version, entry + (phoff + (sections + (phentsize + (phnum + last)))));
    LiesParts(f, 24, entry, phoff + (sections + (phentsize + (phnum + last))));
    LiesParts(f, 32, phoff, sections + (phentsize + (phnum + last)));
    LiesParts(f, 40, sections, phentsize + (phnum + last));
    LiesParts(f, 54, phentsize, phnum + last);
    LiesParts(f, 56, phnum, last);
    LiesIs(f, 58, last);
  }

  lemma ReadsEhdr(f: seq<Byte>, x: Ehdr)
    requires EhdrFits(x) && Lies(f, 0, EhdrBytes(x))
    ensures HeaderOk(f) && Entry(f) == x.entry && HeaderCount(f) == x.phnum
    ensures forall i: nat :: HeaderAt(f, i) == x.phoff + i * x.phentsize
  {
    hide Le, Lies, Get64, Pow256;
    EhdrParts(f, [0x7F, 0x45, 0x4C, 0x46], [2], x.ident, x.kind, [0x3E, 0], x.version, Le(x.entry, 8), Le(x.phoff, 8), x.sections,
              Le(x.phentsize, 2), Le(x.phnum, 2), x.last);
    LiesIs(f, 0, [0x7F, 0x45, 0x4C, 0x46]);
    LiesAt(f, 0, [0x7F, 0x45, 0x4C, 0x46], 0);
    LiesAt(f, 0, [0x7F, 0x45, 0x4C, 0x46], 1);
    LiesAt(f, 0, [0x7F, 0x45, 0x4C, 0x46], 2);
    LiesAt(f, 0, [0x7F, 0x45, 0x4C, 0x46], 3);
    LiesAt(f, 4, [2], 0);
    LiesAt(f, 18, [0x3E, 0], 0);
    LiesAt(f, 18, [0x3E, 0], 1);
    Gets64(f, 24, x.entry);
    Gets64(f, 32, x.phoff);
    Reads16(f, 54, x.phentsize);
    Reads16(f, 56, x.phnum);
  }

  /** The program headers hs lie where the header x says. */
  predicate Laid(f: seq<Byte>, x: Ehdr, hs: seq<Phdr>)
  {
    && EhdrFits(x) && Lies(f, 0, EhdrBytes(x)) && x.phnum == |hs|
    && forall i :: 0 <= i < |hs| ==> PhdrFits(hs[i]) && PhdrLies(f, x, hs, i)
  }

  predicate PhdrLies(f: seq<Byte>, x: Ehdr, hs: seq<Phdr>, i: nat)
    requires i < |hs| && PhdrFits(hs[i])
  {
    Lies(f, x.phoff + i * x.phentsize, PhdrBytes(hs[i])) && SegmentOk(f, SegmentOf(hs[i]))
  }

  function SegmentsOf(hs: seq<Phdr>): (ss: seq<Segment>)
    ensures |ss| == |hs| && forall i :: 0 <= i < |hs| ==> ss[i] == SegmentOf(hs[i])
  {
    seq(|hs|, i requires 0 <= i < |hs| => SegmentOf(hs[i]))
  }

  /** The loader takes the file, with the entry point and the segments that were written. */
  lemma ReadsFile(f: seq<Byte>, x: Ehdr, hs: seq<Phdr>)
    requires Laid(f, x, hs)
    ensures HeaderOk(f) && FileOk(f) && Entry(f) == x.entry && HeaderCount(f) == |hs|
    ensures Headers(f, |hs|) == SegmentsOf(hs)
  {
    hide EhdrBytes, PhdrBytes, PhdrFits, EhdrFits, Lies, HeaderOk, Entry, HeaderCount, HeaderAt, SegmentAt, SegmentOk, SegmentOf;
    ReadsEhdr(f, x);
    forall i | 0 <= i < |hs| ensures HeaderAt(f, i) + 56 <= |f| && SegmentOk(f, SegmentAt(f, HeaderAt(f, i))) {
      ReadsPhdr(f, x.phoff + i * x.phentsize, hs[i]);
    }
    HeadersRead(f, x, hs, |hs|);
    assert SegmentsOf(hs)[..|hs|] == SegmentsOf(hs);
  }

  lemma {:induction false} HeadersRead(f: seq<Byte>, x: Ehdr, hs: seq<Phdr>, n: nat)
    requires Laid(f, x, hs) && HeaderOk(f) && FileOk(f) && n <= |hs| == HeaderCount(f)
    ensures Headers(f, n) == SegmentsOf(hs)[..n]
    decreases n
  {
    hide EhdrBytes, PhdrBytes, PhdrFits, EhdrFits, Lies, HeaderOk, HeaderCount, HeaderAt, SegmentAt, SegmentOk, SegmentOf, FileOk;
    if n > 0 {
      HeadersRead(f, x, hs, n - 1);
      ReadsEhdr(f, x);
      ReadsPhdr(f, x.phoff + (n - 1) * x.phentsize, hs[n - 1]);
      assert HeaderAt(f, n - 1) == x.phoff + (n - 1) * x.phentsize;
    }
  }
}
