/**
 Headers of ELF images as the System V gABI lays them out, and that the relocator reads them back: chapter 4 for the
 identification, the ELF header and the section headers, chapter 5 for the program headers.
 */
module ElfHeaders {
  import opened Wrappers
  import opened Sequences
  import opened Bytes
  import opened Relocate

  /** A field of a header, and how many bytes it takes. */
  datatype Field = Field(value: nat, width: nat)

  predicate Fits(fs: seq<Field>) {
    forall k | 0 <= k < |fs| :: fs[k].value < Pow256(fs[k].width)
  }

  /** The fields one after the other, as `struct.pack` writes them. */
  function Pack(e: Endian, fs: seq<Field>): seq<byte> {
    if fs == [] then [] else Encode(e, fs[0].value, fs[0].width) + Pack(e, fs[1..])
  }

  /** Where field `k` starts. */
  function Offset(fs: seq<Field>, k: nat): nat
    requires k <= |fs|
  {
    if k == 0 then 0 else Offset(fs, k - 1) + fs[k - 1].width
  }

  lemma {:induction false} OffsetBehindFirst(fs: seq<Field>, k: nat)
    requires 0 < k <= |fs|
    ensures Offset(fs, k) == fs[0].width + Offset(fs[1..], k - 1)
  {
    if k > 1 {
      OffsetBehindFirst(fs, k - 1);
    }
  }

  lemma {:induction false} PackedLength(e: Endian, fs: seq<Field>)
    ensures |Pack(e, fs)| == Offset(fs, |fs|)
  {
    if fs != [] {
      PackedLength(e, fs[1..]);
      OffsetBehindFirst(fs, |fs|);
    }
  }

  /** The integer of `w` bytes at `at` is `v`. */
  predicate Holds(e: Endian, bs: seq<byte>, at: nat, w: nat, v: nat) {
    at + w <= |bs| && Decode(e, bs[at..at + w]) == v
  }

  lemma HoldsInside(e: Endian, pre: seq<byte>, mid: seq<byte>, post: seq<byte>, at: nat, w: nat, v: nat)
    requires Holds(e, mid, at, w, v)
    ensures Holds(e, pre + mid + post, |pre| + at, w, v)
  {
    assert (pre + mid + post)[|pre| + at..|pre| + at + w] == mid[at..at + w];
  }

  lemma HoldsBehind(e: Endian, pre: seq<byte>, mid: seq<byte>, at: nat, w: nat, v: nat)
    requires Holds(e, mid, at, w, v)
    ensures Holds(e, pre + mid, |pre| + at, w, v)
  {
    HoldsInside(e, pre, mid, [], at, w, v);
    assert pre + mid + [] == pre + mid;
  }

  lemma HoldsFirst(e: Endian, w: nat, v: nat, post: seq<byte>)
    requires v < Pow256(w)
    ensures Holds(e, Encode(e, v, w) + post, 0, w, v)
  {
    DecodeEncode(e, v, w);
    assert (Encode(e, v, w) + post)[0..w] == Encode(e, v, w);
  }

  /** Each field is read back from its place. */
  lemma {:induction false} FieldReadBack(e: Endian, fs: seq<Field>, k: nat)
    requires k < |fs| && Fits(fs)
    ensures Holds(e, Pack(e, fs), Offset(fs, k), fs[k].width, fs[k].value)
  {
    if k == 0 {
      HoldsFirst(e, fs[0].width, fs[0].value, Pack(e, fs[1..]));
    } else {
      OffsetBehindFirst(fs, k);
      FieldReadBack(e, fs[1..], k - 1);
      HoldsBehind(e, Encode(e, fs[0].value, fs[0].width), Pack(e, fs[1..]), Offset(fs[1..], k - 1), fs[k].width,
          fs[k].value);
    }
  }

  /** What field `k` is when `pre` and `post` stand around the packed fields. */
  lemma FieldInside(e: Endian, fs: seq<Field>, k: nat, pre: seq<byte>, post: seq<byte>, at: nat, w: nat, v: nat)
    requires k < |fs| && Fits(fs) && at == |pre| + Offset(fs, k) && fs[k] == Field(v, w)
    ensures Holds(e, pre + Pack(e, fs) + post, at, w, v)
  {
    FieldReadBack(e, fs, k);
    HoldsInside(e, pre, Pack(e, fs), post, Offset(fs, k), w, v);
  }

  lemma FieldAlone(e: Endian, fs: seq<Field>, k: nat, at: nat, w: nat, v: nat)
    requires k < |fs| && Fits(fs) && at == Offset(fs, k) && fs[k] == Field(v, w)
    ensures Holds(e, Pack(e, fs), at, w, v)
  {
    FieldReadBack(e, fs, k);
  }

  // ---- Identification ----

  function ClassByte(arch: Arch): byte {
    match arch case Elf32 => 1 case Elf64 => 2
  }

  function OrderByte(e: Endian): byte {
    match e case Little => 1 case Big => 2
  }

  /** The 16 bytes an image starts with. */
  function Identification(arch: Arch, e: Endian): (bs: seq<byte>)
    ensures |bs| == 16
  {
    [0x7f] + Ascii("ELF") + [ClassByte(arch), OrderByte(e), 1] + Zeros(9)
  }

  lemma IdentificationReadBack(arch: Arch, e: Endian, rest: seq<byte>)
    ensures GetArch(Identification(arch, e) + rest) == Some((arch, e))
  {
  }

  /**
   Which images are left alone, and when the byte order is little-endian; the letters behind the first byte are not
   looked at.
   */
  lemma IdentificationMeaning(data: seq<byte>)
    requires |data| >= 16
    ensures GetArch(data).None? <==> data[0] != 0x7f || (data[4] != 1 && data[4] != 2)
    ensures GetArch(data).Some? ==>
              (GetArch(data).value.0.Elf32? <==> data[4] == 1) && (GetArch(data).value.1.Little? <==> data[5] == 1)
  {
  }

  // ---- The ELF header ----

  /** What the header holds beside the fields that are used. */
  datatype Others = Others(kind: nat, machine: nat, version: nat, entry: nat, flags: nat, ehsize: nat)

  function HeaderFields(h: Header, o: Others): (fs: seq<Field>)
    ensures |fs| == 13
  {
    var w := WordSize(h.arch);
    [Field(o.kind, 2), Field(o.machine, 2), Field(o.version, 4), Field(o.entry, w), Field(h.phoff, w),
     Field(h.shoff, w), Field(o.flags, 4), Field(o.ehsize, 2), Field(h.phentsize, 2), Field(h.phnum, 2),
     Field(h.shentsize, 2), Field(h.shnum, 2), Field(h.shstrndx, 2)]
  }

  lemma HeaderOffsets(h: Header, o: Others)
    ensures var fs, w := HeaderFields(h, o), WordSize(h.arch);
            && Offset(fs, 4) == 8 + w && Offset(fs, 5) == 8 + 2 * w && Offset(fs, 8) == 14 + 3 * w
            && Offset(fs, 9) == 16 + 3 * w && Offset(fs, 10) == 18 + 3 * w && Offset(fs, 11) == 20 + 3 * w
            && Offset(fs, 12) == 22 + 3 * w
  {
    var fs, w := HeaderFields(h, o), WordSize(h.arch);
    assert Offset(fs, 0) == 0 && Offset(fs, 1) == 2 && Offset(fs, 2) == 4 && Offset(fs, 3) == 8;
    assert Offset(fs, 4) == 8 + w && Offset(fs, 5) == 8 + 2 * w && Offset(fs, 6) == 8 + 3 * w;
    assert Offset(fs, 7) == 12 + 3 * w;
    assert Offset(fs, 8) == 14 + 3 * w && Offset(fs, 9) == 16 + 3 * w && Offset(fs, 10) == 18 + 3 * w;
    assert Offset(fs, 11) == 20 + 3 * w;
  }

  /** Every field of the header that is used is read back, in either class and byte order. */
  lemma HeaderReadBack(ident: seq<byte>, h: Header, o: Others, rest: seq<byte>)
    requires |ident| == 16 && Fits(HeaderFields(h, o))
    requires |ident + Pack(h.endian, HeaderFields(h, o)) + rest| >= 64
    ensures ParseHeader(ident + Pack(h.endian, HeaderFields(h, o)) + rest, h.arch, h.endian) == h
  {
    var fs, w, e := HeaderFields(h, o), WordSize(h.arch), h.endian;
    HeaderOffsets(h, o);
    FieldInside(e, fs, 4, ident, rest, 24 + w, w, h.phoff);
    FieldInside(e, fs, 5, ident, rest, 24 + 2 * w, w, h.shoff);
    FieldInside(e, fs, 8, ident, rest, 30 + 3 * w, 2, h.phentsize);
    FieldInside(e, fs, 9, ident, rest, 32 + 3 * w, 2, h.phnum);
    FieldInside(e, fs, 10, ident, rest, 34 + 3 * w, 2, h.shentsize);
    FieldInside(e, fs, 11, ident, rest, 36 + 3 * w, 2, h.shnum);
    FieldInside(e, fs, 12, ident, rest, 38 + 3 * w, 2, h.shstrndx);
  }

  // ---- Program headers ----

  /** A program header; the flags stand behind the type in the 64-bit format. */
  datatype Segment = Segment(kind: nat, flags: nat, offset: nat, vaddr: nat, paddr: nat, filesz: nat, memsz: nat,
                             align: nat)

  function SegmentFields(arch: Arch, s: Segment): seq<Field> {
    match arch
    case Elf32 =>
      [Field(s.kind, 4), Field(s.offset, 4), Field(s.vaddr, 4), Field(s.paddr, 4), Field(s.filesz, 4),
       Field(s.memsz, 4), Field(s.flags, 4), Field(s.align, 4)]
    case Elf64 =>
      [Field(s.kind, 4), Field(s.flags, 4), Field(s.offset, 8), Field(s.vaddr, 8), Field(s.paddr, 8),
       Field(s.filesz, 8), Field(s.memsz, 8), Field(s.align, 8)]
  }

  lemma SegmentReadBack(h: Header, s: Segment)
    requires Fits(SegmentFields(h.arch, s))
    ensures ParseSegment(h, Pack(h.endian, SegmentFields(h.arch, s))) == Some((s.kind, s.offset, s.filesz))
  {
    var fs, e := SegmentFields(h.arch, s), h.endian;
    PackedLength(e, fs);
    assert Offset(fs, 0) == 0 && Offset(fs, 1) == 4 && Offset(fs, 2) == 8;
    FieldAlone(e, fs, 0, 0, 4, s.kind);
    if h.arch.Elf32? {
      assert Offset(fs, 3) == 12 && Offset(fs, 4) == 16 && Offset(fs, 5) == 20 && Offset(fs, 6) == 24;
      assert Offset(fs, 7) == 28 && Offset(fs, 8) == 32;
      FieldAlone(e, fs, 1, 4, 4, s.offset);
      FieldAlone(e, fs, 4, 16, 4, s.filesz);
    } else {
      assert Offset(fs, 3) == 16 && Offset(fs, 4) == 24 && Offset(fs, 5) == 32 && Offset(fs, 6) == 40;
      assert Offset(fs, 7) == 48 && Offset(fs, 8) == 56;
      FieldAlone(e, fs, 2, 8, 8, s.offset);
      FieldAlone(e, fs, 5, 32, 8, s.filesz);
    }
  }

  // ---- Section headers ----

  datatype SectionOthers = SectionOthers(flags: nat, addr: nat, link: nat, info: nat, align: nat, entsize: nat)

  function SectionFields(arch: Arch, s: Section, o: SectionOthers): seq<Field> {
    var w := WordSize(arch);
    [Field(s.name, 4), Field(s.kind, 4), Field(o.flags, w), Field(o.addr, w), Field(s.offset, w), Field(s.size, w),
     Field(o.link, 4), Field(o.info, 4), Field(o.align, w), Field(o.entsize, w)]
  }

  lemma SectionReadBack(h: Header, s: Section, o: SectionOthers)
    requires Fits(SectionFields(h.arch, s, o))
    ensures ParseSection(h, Pack(h.endian, SectionFields(h.arch, s, o))) == Some(s)
  {
    var fs, e, w := SectionFields(h.arch, s, o), h.endian, WordSize(h.arch);
    PackedLength(e, fs);
    assert Offset(fs, 0) == 0 && Offset(fs, 1) == 4 && Offset(fs, 2) == 8 && Offset(fs, 3) == 8 + w;
    assert Offset(fs, 4) == 8 + 2 * w && Offset(fs, 5) == 8 + 3 * w && Offset(fs, 6) == 8 + 4 * w;
    assert Offset(fs, 7) == 12 + 4 * w && Offset(fs, 8) == 16 + 4 * w && Offset(fs, 9) == 16 + 5 * w;
    assert Offset(fs, 10) == 16 + 6 * w;
    FieldAlone(e, fs, 0, 0, 4, s.name);
    FieldAlone(e, fs, 1, 4, 4, s.kind);
    FieldAlone(e, fs, 4, 8 + 2 * w, w, s.offset);
    FieldAlone(e, fs, 5, 8 + 3 * w, w, s.size);
  }

  /** A header of another size than the format is refused. */
  lemma OtherSizesRefused(h: Header, bs: seq<byte>)
    ensures ParseSegment(h, bs).None? <==> |bs| != (if h.arch.Elf32? then 32 else 56)
    ensures ParseSection(h, bs).None? <==> |bs| != (if h.arch.Elf32? then 40 else 64)
  {
  }

  // ---- Tables of headers ----

  /** The parts before part `i`, all as long, take `i` times that length. */
  lemma {:induction false} PartAt(parts: seq<seq<byte>>, n: nat, i: nat)
    requires i < |parts| && forall k | 0 <= k < |parts| :: |parts[k]| == n
    ensures i * n + n <= |Concat(parts)| && Concat(parts)[i * n..i * n + n] == parts[i]
  {
    var rest := Concat(parts[1..]);
    if i == 0 {
      assert (parts[0] + rest)[0..n] == parts[0];
    } else {
      PartAt(parts[1..], n, i - 1);
      var at := (i - 1) * n;
      assert i * n == n + at;
      assert (parts[0] + rest)[n + at..n + at + n] == rest[at..at + n];
    }
  }

  lemma EntryRead(pre: seq<byte>, parts: seq<seq<byte>>, post: seq<byte>, n: nat, i: nat)
    requires i < |parts| && forall k | 0 <= k < |parts| :: |parts[k]| == n
    ensures ReadAt(pre + Concat(parts) + post, |pre| + i * n, n) == parts[i]
  {
    PartAt(parts, n, i);
    PartRead(pre, Concat(parts), post, i * n, n);
  }

  lemma PartRead(pre: seq<byte>, table: seq<byte>, post: seq<byte>, at: nat, n: nat)
    requires at + n <= |table|
    ensures ReadAt(pre + table + post, |pre| + at, n) == table[at..at + n]
  {
    assert (pre + table + post)[|pre| + at..|pre| + at + n] == table[at..at + n];
  }

  predicate IsSegment(h: Header, part: seq<byte>, s: Segment) {
    Fits(SegmentFields(h.arch, s)) && part == Pack(h.endian, SegmentFields(h.arch, s))
  }

  lemma SegmentParsed(h: Header, part: seq<byte>, s: Segment)
    requires IsSegment(h, part, s)
    ensures ParseSegment(h, part) == Some((s.kind, s.offset, s.filesz)) && |part| == if h.arch.Elf32? then 32 else 56
  {
    SegmentReadBack(h, s);
    OtherSizesRefused(h, part);
  }

  /** In a file that holds a table of program headers, entry `i` is the segment packed there. */
  lemma SegmentInTable(pre: seq<byte>, segments: seq<Segment>, parts: seq<seq<byte>>, post: seq<byte>, h: Header,
                       i: nat)
    requires |parts| == |segments| && i < |parts| && h.phoff == |pre|
    requires h.phentsize == if h.arch.Elf32? then 32 else 56
    requires forall k | 0 <= k < |parts| :: IsSegment(h, parts[k], segments[k])
    ensures var s := segments[i];
            SegmentAt(pre + Concat(parts) + post, h, i) == Some((s.kind, s.offset, s.filesz))
  {
    forall k | 0 <= k < |parts| ensures |parts[k]| == h.phentsize {
      SegmentParsed(h, parts[k], segments[k]);
    }
    EntryRead(pre, parts, post, h.phentsize, i);
    SegmentParsed(h, parts[i], segments[i]);
  }

  predicate IsSection(h: Header, part: seq<byte>, s: Section, o: SectionOthers) {
    Fits(SectionFields(h.arch, s, o)) && part == Pack(h.endian, SectionFields(h.arch, s, o))
  }

  lemma SectionParsed(h: Header, part: seq<byte>, s: Section, o: SectionOthers)
    requires IsSection(h, part, s, o)
    ensures ParseSection(h, part) == Some(s) && |part| == if h.arch.Elf32? then 40 else 64
  {
    SectionReadBack(h, s, o);
    OtherSizesRefused(h, part);
  }

  /** In a file that holds a table of section headers, entry `i` is the section packed there. */
  lemma SectionInTable(pre: seq<byte>, sections: seq<(Section, SectionOthers)>, parts: seq<seq<byte>>,
                       post: seq<byte>, h: Header, i: nat)
    requires |parts| == |sections| && i < |parts| && h.shoff == |pre|
    requires h.shentsize == if h.arch.Elf32? then 40 else 64
    requires forall k | 0 <= k < |parts| :: IsSection(h, parts[k], sections[k].0, sections[k].1)
    ensures SectionAt(pre + Concat(parts) + post, h, i) == Some(sections[i].0)
  {
    forall k | 0 <= k < |parts| ensures |parts[k]| == h.shentsize {
      SectionParsed(h, parts[k], sections[k].0, sections[k].1);
    }
    EntryRead(pre, parts, post, h.shentsize, i);
    SectionParsed(h, parts[i], sections[i].0, sections[i].1);
  }
}
