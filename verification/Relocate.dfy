/**
 The SDK relocator: it patches one ELF image in place when an SDK is installed.

 The script reads the headers of the image, overwrites the interpreter path, the path of the
 loader cache and the compiler's prefix blocks, and rebuilds the loader's directory table
 together with the table of its string lengths.  The layout of the headers is that of the
 System V gABI: chapter 4 (ELF header, section header table), chapter 5 (program header).
 */
module Relocate {
  import opened Wrappers
  import opened Bytes

  // ---- The file ----

  /** `read(n)` at a position; the end of the file cuts it short. */
  function ReadAt(data: seq<byte>, at: nat, n: nat): (bs: seq<byte>)
    ensures |bs| <= n
    ensures at + n <= |data| ==> bs == data[at..at + n]
  {
    if at > |data| then [] else if at + n > |data| then data[at..] else data[at..at + n]
  }

  /** `write(bs)` at a position; behind the end the file grows, with NULs in a gap. */
  function WriteAt(data: seq<byte>, at: nat, bs: seq<byte>): (r: seq<byte>)
    ensures at + |bs| <= |data| ==> |r| == |data| && forall j | 0 <= j < |data| ::
              r[j] == if at <= j < at + |bs| then bs[j - at] else data[j]
  {
    if bs == [] then data
    else
      var d := if at > |data| then data + Zeros(at - |data|) else data;
      d[..at] + bs + (if at + |bs| <= |d| then d[at + |bs|..] else [])
  }

  class ElfFile {
    var data: seq<byte>
    var pos: nat

    constructor (data: seq<byte>)
      ensures this.data == data && pos == 0
    {
      this.data, pos := data, 0;
    }

    method Seek(at: nat)
      modifies this`pos
      ensures pos == at
    {
      pos := at;
    }

    method Read(n: nat) returns (bs: seq<byte>)
      modifies this`pos
      ensures bs == ReadAt(data, old(pos), n) && pos == old(pos) + |bs|
    {
      bs := if pos > |data| then [] else if pos + n > |data| then data[pos..] else data[pos..pos + n];
      pos := pos + |bs|;
    }

    method Write(bs: seq<byte>)
      modifies this
      ensures data == WriteAt(old(data), old(pos), bs) && pos == old(pos) + |bs|
    {
      if bs != [] {
        if pos > |data| {
          data := data + Zeros(pos - |data|);
        }
        data := data[..pos] + bs + (if pos + |bs| <= |data| then data[pos + |bs|..] else []);
      }
      pos := pos + |bs|;
    }
  }

  // ---- Substitution ----

  function OldPrefix(): (bs: seq<byte>)
    ensures |bs| == 23
  {
    Ascii("##DEFAULT_INSTALL_DIR##")
  }

  /** Every occurrence of `old`, from left to right, replaced. */
  function Replace(s: seq<byte>, old_: seq<byte>, to: seq<byte>): seq<byte>
    requires old_ != []
    decreases |s|
  {
    if s == [] then []
    else if old_ <= s then to + Replace(s[|old_|..], old_, to)
    else [s[0]] + Replace(s[1..], old_, to)
  }

  /** A text and what it is replaced by. */
  datatype Replacement = Replacement(from: seq<byte>, to: seq<byte>)

  type Rule = r: Replacement | r.from != [] witness Replacement([0], [])

  /** The built-in prefix gives way to the directory of the installation. */
  function InstallRule(prefix: seq<byte>): Rule {
    Replacement(OldPrefix(), prefix)
  }

  function Substitute(s: seq<byte>, rule: Rule): seq<byte> {
    Replace(s, rule.from, rule.to)
  }

  // ---- Headers ----

  datatype Arch = Elf32 | Elf64

  datatype Header = Header(arch: Arch, endian: Endian, phoff: nat, shoff: nat, phentsize: nat, phnum: nat,
                           shentsize: nat, shnum: nat, shstrndx: nat)

  /** The class and byte order of an image; `None` for what the script leaves alone. */
  function GetArch(data: seq<byte>): Option<(Arch, Endian)>
    requires |data| >= 16
  {
    var endian := if data[5] == 1 then Little else Big;
    if data[0] != 0x7f || data[4] == 0 then None
    else if data[4] == 1 then Some((Elf32, endian))
    else if data[4] == 2 then Some((Elf64, endian))
    else None
  }

  /** The fields behind the 16 bytes of identification. */
  function ParseHeader(data: seq<byte>, arch: Arch, e: Endian): Header
    requires |data| >= 64
  {
    if arch.Elf32? then
      Header(arch, e, Decode(e, data[28..32]), Decode(e, data[32..36]), Decode(e, data[42..44]),
          Decode(e, data[44..46]),
             Decode(e, data[46..48]), Decode(e, data[48..50]), Decode(e, data[50..52]))
    else
      Header(arch, e, Decode(e, data[32..40]), Decode(e, data[40..48]), Decode(e, data[54..56]),
          Decode(e, data[56..58]),
             Decode(e, data[58..60]), Decode(e, data[60..62]), Decode(e, data[62..64]))
  }

  /** Type, offset and file size of a segment; `None` where the entry has another size than the format. */
  function ParseSegment(h: Header, bs: seq<byte>): Option<(nat, nat, nat)> {
    if h.arch.Elf32? then
      if |bs| != 32 then None
      else Some((Decode(h.endian, bs[0..4]), Decode(h.endian, bs[4..8]), Decode(h.endian, bs[16..20])))
    else
      if |bs| != 56 then None
      else Some((Decode(h.endian, bs[0..4]), Decode(h.endian, bs[8..16]), Decode(h.endian, bs[32..40])))
  }

  datatype Section = Section(name: nat, kind: nat, offset: nat, size: nat)

  function ParseSection(h: Header, bs: seq<byte>): Option<Section> {
    if h.arch.Elf32? then
      if |bs| != 40 then None
      else Some(Section(Decode(h.endian, bs[0..4]), Decode(h.endian, bs[4..8]), Decode(h.endian, bs[16..20]),
          Decode(h.endian, bs[20..24])))
    else
      if |bs| != 64 then None
      else Some(Section(Decode(h.endian, bs[0..4]), Decode(h.endian, bs[4..8]), Decode(h.endian, bs[24..32]),
          Decode(h.endian, bs[32..40])))
  }

  function SegmentAt(data: seq<byte>, h: Header, i: nat): Option<(nat, nat, nat)> {
    ParseSegment(h, ReadAt(data, h.phoff + i * h.phentsize, h.phentsize))
  }

  function SectionAt(data: seq<byte>, h: Header, i: nat): Option<Section> {
    ParseSection(h, ReadAt(data, h.shoff + i * h.shentsize, h.shentsize))
  }

  /** The position of the first NUL from `at` on. */
  function FindNul(bs: seq<byte>, at: nat): (r: Option<nat>)
    ensures r.Some? ==> at <= r.value < |bs|
    decreases |bs| - at
  {
    if at >= |bs| then None else if bs[at] == 0 then Some(at) else FindNul(bs, at + 1)
  }

  /** The name of a section; without a NUL the slice of the source loses the last byte of the table. */
  function NameAt(strtab: seq<byte>, at: nat): seq<byte> {
    match FindNul(strtab, at)
    case Some(k) => strtab[at..k]
    case None => if at + 1 < |strtab| then strtab[at..|strtab| - 1] else []
  }

  datatype Role = Sysdirs | Sysdirslen | Ldsocache | Gccrelocprefix | Untouched

  const PT_INTERP := 3
  const SHT_PROGBITS := 1

  function RoleOf(strtab: seq<byte>, sec: Section): Role {
    if sec.kind != SHT_PROGBITS then Untouched
    else
      var name := NameAt(strtab, sec.name);
      if name == Ascii(".sysdirs") then Sysdirs
      else if name == Ascii(".sysdirslen") then Sysdirslen
      else if name == Ascii(".ldsocache") then Ldsocache
      else if name == Ascii(".gccrelocprefix") then Gccrelocprefix
      else Untouched
  }

  // ---- What is written ----

  datatype Error = StructError | NoRoom | UnboundName

  /** The contents after a part of the script, which an error may have interrupted. */
  datatype Result = Ok(data: seq<byte>) | Fail(data: seq<byte>, error: Error)

  /** `text` without trailing NULs, filled up with NULs to `size`; `None` if no room is left for one. */
  function Padded(text: seq<byte>, size: nat): (r: Option<seq<byte>>)
    ensures r.Some? ==> |r.value| == size
  {
    var t := StripNuls(text);
    if |t| >= size then None else Some(t + Zeros(size - |t|))
  }

  /** Interpreters of pre-compiled binaries are left alone. */
  predicate SystemInterpreter(fname: seq<byte>) {
    || Ascii("/lib/") <= fname || Ascii("/lib64/") <= fname || Ascii("/lib32/") <= fname
    || Ascii("/usr/lib32/") <= fname || Ascii("/usr/lib64/") <= fname
  }

  datatype InterpResult = InterpError | Interp(data: seq<byte>, ok: bool)

  /** What is done with the first PT_INTERP segment. */
  function ChangeSegment(data: seq<byte>, p_offset: nat, p_filesz: nat, dl_path: seq<byte>): InterpResult {
    if SystemInterpreter(ReadAt(data, p_offset, 11)) || p_filesz == 0 then Interp(data, true)
    else if |dl_path| >= p_filesz then Interp(data, false)
    else Interp(WriteAt(data, p_offset, dl_path + Zeros(p_filesz - |dl_path|)), true)
  }

  /** `change_interpreter` from segment `i` on. */
  function ChangeInterpreter(data: seq<byte>, h: Header, dl_path: seq<byte>, i: nat): InterpResult
    decreases h.phnum - i
  {
    if i >= h.phnum then Interp(data, true)
    else
      match SegmentAt(data, h, i)
      case None => InterpError
      case Some((p_type, p_offset, p_filesz)) =>
        if p_type != PT_INTERP then ChangeInterpreter(data, h, dl_path, i + 1)
        else ChangeSegment(data, p_offset, p_filesz, dl_path)
  }

  /** The loop over the blocks of `.gccrelocprefix` from `offset` on. */
  function ChangeBlocks(data: seq<byte>, sec: Section, rule: Rule, offset: nat): Result
    decreases sec.size - offset
  {
    if offset + 4096 > sec.size then Ok(data)
    else
      match Padded(Substitute(ReadAt(data, sec.offset + offset, 4096), rule), 4096)
      case None => Fail(data, NoRoom)
      case Some(path) => ChangeBlocks(WriteAt(data, sec.offset + offset, path), sec, rule, offset + 4096)
  }

  /** What the loop over the sections has found of the loader's tables. */
  datatype Found = Found(sysdirs: Option<(seq<byte>, Section)>, sysdirslen: Option<Section>)

  function ChangeSection(data: seq<byte>, sec: Section, role: Role, rule: Rule): Result {
    match role
    case Ldsocache =>
      (match Padded(Substitute(ReadAt(data, sec.offset, sec.size), rule), sec.size)
       case None => Fail(data, NoRoom)
       case Some(path) => Ok(WriteAt(data, sec.offset, path)))
    case Gccrelocprefix => ChangeBlocks(data, sec, rule, 0)
    case _ => Ok(data)
  }

  function Note(found: Found, data: seq<byte>, sec: Section, role: Role): Found {
    match role
    case Sysdirs => found.(sysdirs := Some((ReadAt(data, sec.offset, sec.size), sec)))
    case Sysdirslen => found.(sysdirslen := Some(sec))
    case _ => found
  }

  /** The loop over the sections from `i` on. */
  function ChangeSections(data: seq<byte>, h: Header, strtab: seq<byte>, rule: Rule, i: nat,
                          found: Found): (Result, Found)
    decreases h.shnum - i
  {
    if i >= h.shnum then (Ok(data), found)
    else
      match SectionAt(data, h, i)
      case None => (Fail(data, StructError), found)
      case Some(sec) =>
        var role := RoleOf(strtab, sec);
        match ChangeSection(data, sec, role, rule)
        case Fail(d, e) => (Fail(d, e), found)
        case Ok(d) => ChangeSections(d, h, strtab, rule, i + 1, Note(found, data, sec, role))
  }

  /** The paths of the directory table: up to the first empty one. */
  function Paths(bs: seq<byte>): (ps: seq<seq<byte>>)
    ensures forall p :: p in ps ==> p != [] && 0 !in p
    decreases |bs|
  {
    if bs == [] || bs[0] == 0 then []
    else
      match FindNul(bs, 0)
      case None => NoNul(bs, 0); [bs]
      case Some(k) => NulFirst(bs, 0); [bs[..k]] + Paths(bs[k + 1..])
  }

  lemma NoNul(bs: seq<byte>, at: nat)
    requires FindNul(bs, at).None?
    ensures forall j | at <= j < |bs| :: bs[j] != 0
    decreases |bs| - at
  {
    if at < |bs| {
      NoNul(bs, at + 1);
    }
  }

  lemma NulFirst(bs: seq<byte>, at: nat)
    requires FindNul(bs, at).Some?
    ensures bs[FindNul(bs, at).value] == 0 && forall j | at <= j < FindNul(bs, at).value :: bs[j] != 0
    decreases |bs| - at
  {
    if bs[at] != 0 {
      NulFirst(bs, at + 1);
    }
  }

  function NewPaths(ps: seq<seq<byte>>, rule: Rule): (r: seq<seq<byte>>)
    ensures |r| == |ps| && forall i | 0 <= i < |ps| :: r[i] == Substitute(ps[i], rule)
  {
    if ps == [] then [] else [Substitute(ps[0], rule)] + NewPaths(ps[1..], rule)
  }

  /** The strings, each with a NUL behind it. */
  function Strings(ps: seq<seq<byte>>): seq<byte> {
    if ps == [] then [] else ps[0] + [0] + Strings(ps[1..])
  }

  function WordSize(arch: Arch): nat {
    if arch.Elf32? then 4 else 8
  }

  /** The lengths as little-endian words, whatever the byte order of the image. */
  function Lengths(ps: seq<seq<byte>>, w: nat): seq<byte> {
    if ps == [] then [] else EncodeLittle(|ps[0]|, w) + Lengths(ps[1..], w)
  }

  predicate LengthsFit(ps: seq<seq<byte>>, w: nat) {
    forall i | 0 <= i < |ps| :: |ps[i]| < Pow256(w)
  }

  /** The end of `change_dl_sysdirs`. */
  function ChangeTables(data: seq<byte>, h: Header, rule: Rule, found: Found): Result {
    match found.sysdirs
    case None => Ok(data)
    case Some((sysdirs, sec)) =>
      match found.sysdirslen
      case None => Fail(data, UnboundName)
      case Some(lensec) =>
        NewTables(data, NewPaths(Paths(sysdirs), rule), WordSize(h.arch), sec, lensec)
  }

  /** Both tables of the paths, written back; nothing checks whether the first one outgrows its section. */
  function NewTables(data: seq<byte>, ps: seq<seq<byte>>, w: nat, sec: Section, lensec: Section): Result {
    if !LengthsFit(ps, w) then Fail(data, StructError)
    else Ok(WriteAt(WriteAt(data, sec.offset, Filled(Strings(ps), sec.size)), lensec.offset, Lengths(ps, w)))
  }

  /** Padding with NULs, of which there may be none. */
  function Filled(text: seq<byte>, size: nat): seq<byte> {
    text + if |text| < size then Zeros(size - |text|) else []
  }

  function ChangeDlSysdirs(data: seq<byte>, h: Header, rule: Rule): Result {
    match SectionAt(data, h, h.shstrndx)
    case None => Fail(data, StructError)
    case Some(sec) =>
      var (r, found) := ChangeSections(data, h, ReadAt(data, sec.offset, sec.size), rule, 0, Found(None, None));
      match r
      case Fail(_, _) => r
      case Ok(d) => ChangeTables(d, h, rule, found)
  }

  /** One executable; the flag is false when the new interpreter path does not fit. */
  function RelocateImage(data: seq<byte>, prefix: seq<byte>, dl_path: seq<byte>): (Result, bool) {
    if |data| < 64 then (Ok(data), true)
    else
      match GetArch(data)
      case None => (Ok(data), true)
      case Some((arch, endian)) =>
        var h := ParseHeader(data, arch, endian);
        match ChangeInterpreter(data, h, dl_path, 0)
        case InterpError => (Fail(data, StructError), true)
        case Interp(d, ok) => (ChangeDlSysdirs(d, h, InstallRule(prefix)), ok)
  }
}
