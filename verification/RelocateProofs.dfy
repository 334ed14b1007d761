/**
 What relocation does to a well laid out image: the regions it may write to, the contents it
 leaves there, and that everything else keeps its bytes.
 */
module RelocateProofs {
  import opened Wrappers
  import opened Bytes
  import opened Relocate

  // ---- Regions ----

  datatype Region = Region(at: nat, size: nat)

  predicate Has(r: Region, j: int) {
    r.at <= j < r.at + r.size
  }

  ghost predicate Apart(a: Region, b: Region) {
    forall j :: Has(a, j) ==> !Has(b, j)
  }

  ghost predicate Outside(rs: seq<Region>, j: int) {
    forall k | 0 <= k < |rs| :: !Has(rs[k], j)
  }

  ghost predicate ApartFromAll(r: Region, rs: seq<Region>) {
    forall k | 0 <= k < |rs| :: Apart(r, rs[k])
  }

  /** The length is the same, and so is every byte outside the regions. */
  ghost predicate Kept(after: seq<byte>, before: seq<byte>, rs: seq<Region>) {
    && |after| == |before|
    && forall j | 0 <= j < |before| && Outside(rs, j) :: after[j] == before[j]
  }

  lemma ReadKept(after: seq<byte>, before: seq<byte>, rs: seq<Region>, r: Region)
    requires Kept(after, before, rs) && ApartFromAll(r, rs)
    ensures ReadAt(after, r.at, r.size) == ReadAt(before, r.at, r.size)
  {
    forall j | 0 <= j < |before| && Has(r, j) ensures after[j] == before[j] {
      assert Outside(rs, j);
    }
    var n := |ReadAt(after, r.at, r.size)|;
    assert n == |ReadAt(before, r.at, r.size)|;
    assert forall j | 0 <= j < n :: ReadAt(after, r.at, r.size)[j] == after[r.at + j];
    assert forall j | 0 <= j < n :: ReadAt(before, r.at, r.size)[j] == before[r.at + j];
  }

  lemma WriteKept(data: seq<byte>, at: nat, bs: seq<byte>, r: Region)
    requires r.at <= at && at + |bs| <= r.at + r.size <= |data|
    ensures Kept(WriteAt(data, at, bs), data, [r])
    ensures ReadAt(WriteAt(data, at, bs), at, |bs|) == bs
  {
    var after := WriteAt(data, at, bs);
    forall j | 0 <= j < |data| && Outside([r], j) ensures after[j] == data[j] {
      assert !Has([r][0], j);
    }
  }

  lemma KeptTrans(c: seq<byte>, b: seq<byte>, a: seq<byte>, late: seq<Region>, early: seq<Region>)
    requires Kept(b, a, early) && Kept(c, b, late)
    ensures Kept(c, a, early + late)
  {
    forall j | 0 <= j < |a| && Outside(early + late, j) ensures c[j] == a[j] {
      forall k | 0 <= k < |early| ensures !Has(early[k], j) {
        assert (early + late)[k] == early[k];
      }
      forall k | 0 <= k < |late| ensures !Has(late[k], j) {
        assert (early + late)[|early| + k] == late[k];
      }
      assert Outside(early, j) && Outside(late, j);
    }
  }

  lemma KeptJoined(c: seq<byte>, b: seq<byte>, a: seq<byte>, late: Region, early: Region, all: Region)
    requires Kept(b, a, [early]) && Kept(c, b, [late])
    requires all.at <= early.at && early.at + early.size <= all.at + all.size
    requires all.at <= late.at && late.at + late.size <= all.at + all.size
    ensures Kept(c, a, [all])
  {
    forall j | 0 <= j < |a| && Outside([all], j) ensures c[j] == a[j] {
      assert !Has([all][0], j);
      assert Outside([early], j) && Outside([late], j);
    }
  }

  lemma KeptMore(after: seq<byte>, before: seq<byte>, rs: seq<Region>, more: seq<Region>)
    requires Kept(after, before, rs) && forall r | r in rs :: r in more
    ensures Kept(after, before, more)
  {
    forall j | 0 <= j < |before| && Outside(more, j) ensures after[j] == before[j] {
      forall k | 0 <= k < |rs| ensures !Has(rs[k], j) {
        assert rs[k] in more;
        var i :| 0 <= i < |more| && more[i] == rs[k];
        assert !Has(more[i], j);
      }
      assert Outside(rs, j);
    }
  }

  // ---- The layout of an image ----

  /** What a section header says, with the role its name gives the section. */
  datatype Entry = Unreadable | Entry(sec: Section, role: Role)

  /**
   An image: its contents and the new paths, the interpreter to be rewritten (empty if none is),
   the sections, and the regions that have to stay readable: the section headers and names.
   */
  datatype Image = Image(data: seq<byte>, rule: Rule, dl_path: seq<byte>,
                         interp: Region, entries: seq<Entry>, tables: seq<Region>)

  function EntryAt(data: seq<byte>, h: Header, strtab: seq<byte>, k: nat): Entry {
    match SectionAt(data, h, k)
    case None => Unreadable
    case Some(sec) => Entry(sec, RoleOf(strtab, sec))
  }

  /** The first PT_INTERP segment from segment `i` on. */
  function FirstInterp(data: seq<byte>, h: Header, i: nat): Option<Region>
    decreases h.phnum - i
  {
    if i >= h.phnum then None
    else
      match SegmentAt(data, h, i)
      case None => None
      case Some((p_type, p_offset, p_filesz)) =>
        if p_type == PT_INTERP then Some(Region(p_offset, p_filesz)) else FirstInterp(data, h, i + 1)
  }

  /** The interpreter is rewritten when it is no system interpreter and the new path leaves room for a NUL. */
  function InterpRegion(data: seq<byte>, h: Header, dl_path: seq<byte>): Region {
    match FirstInterp(data, h, 0)
    case None => Region(0, 0)
    case Some(r) => if SystemInterpreter(ReadAt(data, r.at, 11)) || |dl_path| >= r.size then Region(0, 0) else r
  }

  function SectionHeader(h: Header, k: nat): Region {
    Region(h.shoff + k * h.shentsize, h.shentsize)
  }

  function Names(data: seq<byte>, h: Header): Region {
    match SectionAt(data, h, h.shstrndx)
    case None => Region(0, 0)
    case Some(sec) => Region(sec.offset, sec.size)
  }

  function ImageOf(data: seq<byte>, h: Header, rule: Rule, dl_path: seq<byte>): Image {
    var names := Names(data, h);
    var strtab := ReadAt(data, names.at, names.size);
    Image(data, rule, dl_path, InterpRegion(data, h, dl_path),
          seq(h.shnum, k requires 0 <= k < h.shnum => EntryAt(data, h, strtab, k)),
          seq(h.shnum, k requires 0 <= k < h.shnum => SectionHeader(h, k)) + [SectionHeader(h, h.shstrndx), names])
  }

  predicate HasRole(m: Image, k: nat, role: Role) {
    k < |m.entries| && m.entries[k].Entry? && m.entries[k].role == role
  }

  /** The bytes of a section that may be written: of the prefix blocks only the whole ones. */
  function SectionRegion(e: Entry): Region {
    if e.Unreadable? || e.role.Untouched? then Region(0, 0)
    else if e.role.Gccrelocprefix? then Region(e.sec.offset, e.sec.size / 4096 * 4096)
    else Region(e.sec.offset, e.sec.size)
  }

  /** The interpreter first, then the sections in the order of their headers. */
  function Patched(m: Image): (rs: seq<Region>)
    ensures |rs| == |m.entries| + 1 && rs[0] == m.interp
    ensures forall k | 0 <= k < |m.entries| :: rs[k + 1] == SectionRegion(m.entries[k])
  {
    [m.interp] + seq(|m.entries|, k requires 0 <= k < |m.entries| => SectionRegion(m.entries[k]))
  }

  predicate InBounds(data: seq<byte>, rs: seq<Region>) {
    forall k | 0 <= k < |rs| :: rs[k].at + rs[k].size <= |data|
  }

  ghost predicate PairwiseApart(rs: seq<Region>) {
    forall i, k | 0 <= i < |rs| && 0 <= k < |rs| && i != k :: Apart(rs[i], rs[k])
  }

  lemma ApartFromOthers(rs: seq<Region>, k: nat)
    requires PairwiseApart(rs) && k < |rs|
    ensures ApartFromAll(rs[k], rs[..k]) && ApartFromAll(rs[k], rs[k + 1..])
  {
    var early, late := rs[..k], rs[k + 1..];
    assert forall i | 0 <= i < |early| :: early[i] == rs[i];
    assert forall i | 0 <= i < |late| :: late[i] == rs[k + 1 + i];
  }

  /** The regions are in bounds, apart from each other, from the section headers and from their names. */
  ghost predicate Layout(m: Image) {
    var rs := Patched(m);
    && InBounds(m.data, rs) && PairwiseApart(rs)
    && (forall k | 0 <= k < |m.tables| :: ApartFromAll(m.tables[k], rs))
  }

  // ---- The interpreter ----

  lemma {:induction false} InterpreterFrom(data: seq<byte>, h: Header, dl_path: seq<byte>, i: nat)
    requires ChangeInterpreter(data, h, dl_path, i).Interp?
    ensures ChangeInterpreter(data, h, dl_path, i) ==
            match FirstInterp(data, h, i)
            case None => Interp(data, true)
            case Some(r) => ChangeSegment(data, r.at, r.size, dl_path)
    decreases h.phnum - i
  {
    if i < h.phnum {
      var (p_type, p_offset, p_filesz) := SegmentAt(data, h, i).value;
      if p_type != PT_INTERP {
        InterpreterFrom(data, h, dl_path, i + 1);
      }
    }
  }

  /** What the segment holds: the new path with NULs behind it, at least one. */
  predicate InterpDone(m: Image, d: seq<byte>) {
    m.interp.size > 0 ==>
      && |m.dl_path| < m.interp.size
      && ReadAt(d, m.interp.at, m.interp.size) == m.dl_path + Zeros(m.interp.size - |m.dl_path|)
  }

  lemma InterpreterEffect(m: Image, h: Header)
    requires m.interp == InterpRegion(m.data, h, m.dl_path) && InBounds(m.data, [m.interp])
    requires ChangeInterpreter(m.data, h, m.dl_path, 0).Interp?
    ensures var d := ChangeInterpreter(m.data, h, m.dl_path, 0).data;
            Kept(d, m.data, [m.interp]) && InterpDone(m, d)
    ensures ChangeInterpreter(m.data, h, m.dl_path, 0).ok <==> InterpreterFits(m.data, h, m.dl_path)
  {
    InterpreterFrom(m.data, h, m.dl_path, 0);
    var r := m.interp;
    assert [m.interp][0] == r;
    if r.size > 0 {
      WriteKept(m.data, r.at, m.dl_path + Zeros(r.size - |m.dl_path|), r);
    }
  }

  /** When the script does not complain about the size of the interpreter. */
  predicate InterpreterFits(data: seq<byte>, h: Header, dl_path: seq<byte>) {
    match FirstInterp(data, h, 0)
    case None => true
    case Some(r) => SystemInterpreter(ReadAt(data, r.at, 11)) || r.size == 0 || |dl_path| < r.size
  }

  // ---- One section ----

  /** What is at `at` is its own former contents, substituted, stripped and filled up with NULs. */
  predicate PathDone(before: seq<byte>, after: seq<byte>, at: nat, size: nat, rule: Rule) {
    Padded(Substitute(ReadAt(before, at, size), rule), size) == Some(ReadAt(after, at, size))
  }

  /** Filling up: the contents up to the trailing NULs are the text's, and at least one NUL follows. */
  lemma PaddedMeaning(text: seq<byte>, size: nat)
    ensures Padded(text, size).Some? <==> |StripNuls(text)| < size
    ensures Padded(text, size).Some? ==>
              var p := Padded(text, size).value;
              |p| == size && p[size - 1] == 0 && StripNuls(p) == StripNuls(text)
  {
    var t := StripNuls(text);
    if |t| < size {
      StripPadded(t, size - |t|);
    }
  }

  predicate BlocksDone(rule: Rule, before: seq<byte>, after: seq<byte>, sec: Section, first: nat) {
    forall b: nat | first <= b < sec.size / 4096 :: PathDone(before, after, sec.offset + b * 4096, 4096, rule)
  }

  predicate SectionDone(m: Image, after: seq<byte>, k: nat) {
    && (HasRole(m, k, Ldsocache) ==> PathDone(m.data, after, m.entries[k].sec.offset, m.entries[k].sec.size, m.rule))
    && (HasRole(m, k, Gccrelocprefix) ==> BlocksDone(m.rule, m.data, after, m.entries[k].sec, 0))
  }

  function Block(sec: Section, b: nat): Region {
    Region(sec.offset + b * 4096, 4096)
  }

  /** The whole blocks from block `b` on. */
  function BlocksFrom(sec: Section, b: nat): Region
    requires b <= sec.size / 4096
  {
    Region(sec.offset + b * 4096, (sec.size / 4096 - b) * 4096)
  }

  lemma {:induction false} BlocksEffect(rule: Rule, d: seq<byte>, sec: Section, b: nat)
    requires b <= sec.size / 4096 && InBounds(d, [BlocksFrom(sec, b)])
    requires ChangeBlocks(d, sec, rule, b * 4096).Ok?
    ensures var after := ChangeBlocks(d, sec, rule, b * 4096).data;
            Kept(after, d, [BlocksFrom(sec, b)]) && BlocksDone(rule, d, after, sec, b)
    decreases sec.size / 4096 - b
  {
    if b < sec.size / 4096 {
      assert [BlocksFrom(sec, b)][0] == BlocksFrom(sec, b);
      var next := BlockEffect(rule, d, sec, b);
      BlocksEffect(rule, next, sec, b + 1);
      var after := ChangeBlocks(d, sec, rule, b * 4096).data;
      BlockByBlock(rule, d, next, after, sec, b);
      KeptJoined(after, next, d, BlocksFrom(sec, b + 1), Block(sec, b), BlocksFrom(sec, b));
    }
  }

  lemma BlockEffect(rule: Rule, d: seq<byte>, sec: Section, b: nat) returns (next: seq<byte>)
    requires b < sec.size / 4096 && Block(sec, b).at + 4096 <= |d|
    requires ChangeBlocks(d, sec, rule, b * 4096).Ok?
    ensures Kept(next, d, [Block(sec, b)]) && PathDone(d, next, sec.offset + b * 4096, 4096, rule)
    ensures ChangeBlocks(d, sec, rule, b * 4096) == ChangeBlocks(next, sec, rule, (b + 1) * 4096)
  {
    var path := Padded(Substitute(ReadAt(d, sec.offset + b * 4096, 4096), rule), 4096).value;
    next := WriteAt(d, sec.offset + b * 4096, path);
    WriteKept(d, sec.offset + b * 4096, path, Block(sec, b));
    assert (b + 1) * 4096 == b * 4096 + 4096;
  }

  lemma BlockByBlock(rule: Rule, d: seq<byte>, next: seq<byte>, after: seq<byte>, sec: Section, b: nat)
    requires b < sec.size / 4096
    requires Kept(next, d, [Block(sec, b)]) && PathDone(d, next, sec.offset + b * 4096, 4096, rule)
    requires Kept(after, next, [BlocksFrom(sec, b + 1)]) && BlocksDone(rule, next, after, sec, b + 1)
    ensures BlocksDone(rule, d, after, sec, b)
  {
    ReadKept(after, next, [BlocksFrom(sec, b + 1)], Block(sec, b));
    forall c: nat | b < c < sec.size / 4096
      ensures ReadAt(next, sec.offset + c * 4096, 4096) == ReadAt(d, sec.offset + c * 4096, 4096)
    {
      ReadKept(next, d, [Block(sec, b)], Block(sec, c));
    }
    BlocksJoined(rule, d, next, after, sec, b);
  }

  lemma BlocksJoined(rule: Rule, d: seq<byte>, next: seq<byte>, after: seq<byte>, sec: Section, b: nat)
    requires b < sec.size / 4096 && PathDone(d, next, sec.offset + b * 4096, 4096, rule)
    requires ReadAt(after, sec.offset + b * 4096, 4096) == ReadAt(next, sec.offset + b * 4096, 4096)
    requires forall c: nat | b < c < sec.size / 4096 ::
             ReadAt(next, sec.offset + c * 4096, 4096) == ReadAt(d, sec.offset + c * 4096, 4096)
    requires BlocksDone(rule, next, after, sec, b + 1)
    ensures BlocksDone(rule, d, after, sec, b)
  {
    forall c: nat | b <= c < sec.size / 4096 ensures PathDone(d, after, sec.offset + c * 4096, 4096, rule) {
      if c > b {
        assert PathDone(next, after, sec.offset + c * 4096, 4096, rule);
      }
    }
  }

  lemma Within(part: Region, r: Region, rs: seq<Region>)
    requires ApartFromAll(r, rs)
    requires r.at <= part.at && part.at + part.size <= r.at + r.size
    ensures ApartFromAll(part, rs)
  {
    forall k | 0 <= k < |rs| ensures Apart(part, rs[k]) {
      forall j | Has(part, j) ensures !Has(rs[k], j) {
        assert Has(r, j);
      }
    }
  }

  lemma BlocksKept(rule: Rule, before: seq<byte>, d: seq<byte>, after: seq<byte>, sec: Section, rs: seq<Region>)
    requires ApartFromAll(Region(sec.offset, sec.size / 4096 * 4096), rs)
    ensures Kept(after, d, rs) && BlocksDone(rule, before, d, sec, 0) ==> BlocksDone(rule, before, after, sec, 0)
    ensures Kept(d, before, rs) && BlocksDone(rule, d, after, sec, 0) ==> BlocksDone(rule, before, after, sec, 0)
  {
    var all := Region(sec.offset, sec.size / 4096 * 4096);
    forall b: nat | b < sec.size / 4096
      ensures Kept(after, d, rs) && PathDone(before, d, sec.offset + b * 4096, 4096, rule) ==>
              PathDone(before, after, sec.offset + b * 4096, 4096, rule)
      ensures Kept(d, before, rs) && PathDone(d, after, sec.offset + b * 4096, 4096, rule) ==>
              PathDone(before, after, sec.offset + b * 4096, 4096, rule)
    {
      var here := Region(sec.offset + b * 4096, 4096);
      Within(here, all, rs);
      if Kept(after, d, rs) {
        ReadKept(after, d, rs, here);
      }
      if Kept(d, before, rs) {
        ReadKept(d, before, rs, here);
      }
    }
  }

  /** Changes elsewhere leave a section done. */
  lemma StaysDone(m: Image, d: seq<byte>, after: seq<byte>, k: nat, rs: seq<Region>)
    requires k < |m.entries| && SectionDone(m, d, k) && Kept(after, d, rs) &&
             ApartFromAll(SectionRegion(m.entries[k]), rs)
    ensures SectionDone(m, after, k)
  {
    if HasRole(m, k, Ldsocache) {
      ReadKept(after, d, rs, SectionRegion(m.entries[k]));
    } else if HasRole(m, k, Gccrelocprefix) {
      BlocksKept(m.rule, m.data, d, after, m.entries[k].sec, rs);
    }
  }

  lemma SectionEffect(m: Image, d: seq<byte>, k: nat, rs: seq<Region>)
    requires k < |m.entries| && m.entries[k].Entry? && ApartFromAll(SectionRegion(m.entries[k]), rs)
    requires InBounds(m.data, [SectionRegion(m.entries[k])])
    requires Kept(d, m.data, rs)
    requires ChangeSection(d, m.entries[k].sec, m.entries[k].role, m.rule).Ok?
    ensures var after := ChangeSection(d, m.entries[k].sec, m.entries[k].role, m.rule).data;
            Kept(after, d, [SectionRegion(m.entries[k])]) && SectionDone(m, after, k)
  {
    var sec, r := m.entries[k].sec, SectionRegion(m.entries[k]);
    assert [r][0] == r;
    if HasRole(m, k, Ldsocache) {
      ReadKept(d, m.data, rs, r);
      var path := Padded(Substitute(ReadAt(d, sec.offset, sec.size), m.rule), sec.size).value;
      WriteKept(d, sec.offset, path, r);
    } else if HasRole(m, k, Gccrelocprefix) {
      BlocksEffect(m.rule, d, sec, 0);
      BlocksKept(m.rule, m.data, d, ChangeBlocks(d, sec, m.rule, 0).data, sec, rs);
    }
  }

  // ---- All sections ----

  /** The last section of the first `n` with a role. */
  function LastOf(m: Image, role: Role, n: nat): (r: Option<nat>)
    ensures r.Some? ==> r.value < n && HasRole(m, r.value, role)
    ensures forall k: nat | k < n && HasRole(m, k, role) :: r.Some? && k <= r.value
  {
    if n == 0 then None else if HasRole(m, n - 1, role) then Some(n - 1) else LastOf(m, role, n - 1)
  }

  function Contents(m: Image, data: seq<byte>, k: nat): seq<byte>
    requires k < |m.entries| && m.entries[k].Entry?
  {
    ReadAt(data, m.entries[k].sec.offset, m.entries[k].sec.size)
  }

  /** The tables among the first `n` sections; the directories as they were at first. */
  function FoundIn(m: Image, n: nat): Found {
    Found(match LastOf(m, Sysdirs, n)
          case None => None
          case Some(k) => Some((Contents(m, m.data, k), m.entries[k].sec)),
          match LastOf(m, Sysdirslen, n) case None => None case Some(k) => Some(m.entries[k].sec))
  }

  lemma NoteEffect(m: Image, d: seq<byte>, k: nat, rs: seq<Region>)
    requires k < |m.entries| && m.entries[k].Entry? && ApartFromAll(SectionRegion(m.entries[k]), rs)
    requires Kept(d, m.data, rs)
    ensures Note(FoundIn(m, k), d, m.entries[k].sec, m.entries[k].role) == FoundIn(m, k + 1)
  {
    if HasRole(m, k, Sysdirs) {
      ReadKept(d, m.data, rs, SectionRegion(m.entries[k]));
    }
  }

  /** The loop over sections whose headers are known beforehand. */
  function ChangeEntries(d: seq<byte>, entries: seq<Entry>, rule: Rule, k: nat, found: Found): (Result, Found)
    decreases |entries| - k
  {
    if k >= |entries| then (Ok(d), found)
    else if entries[k].Unreadable? then (Fail(d, StructError), found)
    else
      match ChangeSection(d, entries[k].sec, entries[k].role, rule)
      case Fail(d', e) => (Fail(d', e), found)
      case Ok(d') => ChangeEntries(d', entries, rule, k + 1, Note(found, d, entries[k].sec, entries[k].role))
  }

  /** The next step keeps what the section headers say. */
  lemma NextKept(m: Image, d: seq<byte>, k: nat)
    requires Layout(m) && k < |m.entries| && Kept(d, m.data, Patched(m)[..k + 1])
    requires m.entries[k].Entry? && ChangeSection(d, m.entries[k].sec, m.entries[k].role, m.rule).Ok?
    ensures var next := ChangeSection(d, m.entries[k].sec, m.entries[k].role, m.rule).data;
            && Kept(next, m.data, Patched(m)[..k + 2]) && Kept(next, d, [Patched(m)[k + 1]])
            && SectionDone(m, next, k)
    ensures ApartFromAll(SectionRegion(m.entries[k]), Patched(m)[..k + 1])
  {
    var rs := Patched(m);
    var next := ChangeSection(d, m.entries[k].sec, m.entries[k].role, m.rule).data;
    ApartFromOthers(rs, k + 1);
    SectionEffect(m, d, k, rs[..k + 1]);
    KeptTrans(next, d, m.data, [rs[k + 1]], rs[..k + 1]);
    assert rs[..k + 1] + [rs[k + 1]] == rs[..k + 2];
  }

  lemma EntryKept(data: seq<byte>, d: seq<byte>, h: Header, strtab: seq<byte>, k: nat, rs: seq<Region>)
    requires Kept(d, data, rs) && ApartFromAll(SectionHeader(h, k), rs)
    ensures EntryAt(d, h, strtab, k) == EntryAt(data, h, strtab, k)
  {
    ReadKept(d, data, rs, SectionHeader(h, k));
  }

  lemma SectionsStep(d: seq<byte>, h: Header, strtab: seq<byte>, rule: Rule, k: nat, found: Found, e: Entry)
    requires k < h.shnum && EntryAt(d, h, strtab, k) == e
    ensures ChangeSections(d, h, strtab, rule, k, found) ==
            if e.Unreadable? then (Fail(d, StructError), found)
            else match ChangeSection(d, e.sec, e.role, rule)
                 case Fail(d', err) => (Fail(d', err), found)
                 case Ok(d') => ChangeSections(d', h, strtab, rule, k + 1, Note(found, d, e.sec, e.role))
  {
  }

  /** Headers read on the way say what they said at first. */
  lemma {:induction false} HeadersKept(m: Image, h: Header, strtab: seq<byte>, d: seq<byte>, k: nat, found: Found)
    requires Layout(m) && |m.entries| == h.shnum && |m.tables| >= h.shnum
    requires forall i | 0 <= i < h.shnum ::
               m.entries[i] == EntryAt(m.data, h, strtab, i) && m.tables[i] == SectionHeader(h, i)
    requires k <= h.shnum && Kept(d, m.data, Patched(m)[..k + 1])
    ensures ChangeSections(d, h, strtab, m.rule, k, found) == ChangeEntries(d, m.entries, m.rule, k, found)
    decreases h.shnum - k
  {
    if k < h.shnum {
      var e := m.entries[k];
      assert ApartFromAll(m.tables[k], Patched(m));
      EntryKept(m.data, d, h, strtab, k, Patched(m)[..k + 1]);
      SectionsStep(d, h, strtab, m.rule, k, found, e);
      if e.Entry? && ChangeSection(d, e.sec, e.role, m.rule).Ok? {
        NextKept(m, d, k);
        HeadersKept(m, h, strtab, ChangeSection(d, e.sec, e.role, m.rule).data, k + 1, Note(found, d, e.sec, e.role));
      }
    }
  }

  ghost predicate DoneBelow(m: Image, d: seq<byte>, k: nat) {
    forall i: nat | i < k && i < |m.entries| :: SectionDone(m, d, i)
  }

  /** Before section `k`: only regions of the interpreter and earlier sections changed, and those sections are done. */
  ghost predicate Reached(m: Image, d: seq<byte>, k: nat) {
    k <= |m.entries| && Kept(d, m.data, Patched(m)[..k + 1]) && DoneBelow(m, d, k) && InterpDone(m, d)
  }

  /** What every successful step of the loop keeps holds when the loop has succeeded. */
  lemma {:induction false} LoopKeeps(entries: seq<Entry>, rule: Rule, inv: (seq<byte>, nat, Found) -> bool,
                                     d: seq<byte>, k: nat, found: Found, r: Result, found': Found)
    requires forall d, k: nat, found :: inv(d, k, found) ==> KeptByStep(entries, rule, inv, d, k, found)
    requires k <= |entries| && inv(d, k, found)
    requires ChangeEntries(d, entries, rule, k, found) == (r, found') && r.Ok?
    ensures inv(r.data, |entries|, found')
    decreases |entries| - k
  {
    if k < |entries| {
      var next := ChangeSection(d, entries[k].sec, entries[k].role, rule).data;
      assert KeptByStep(entries, rule, inv, d, k, found);
      LoopKeeps(entries, rule, inv, next, k + 1, Note(found, d, entries[k].sec, entries[k].role), r, found');
    }
  }

  ghost predicate KeptByStep(entries: seq<Entry>, rule: Rule, inv: (seq<byte>, nat, Found) -> bool, d: seq<byte>,
                             k: nat, found: Found) {
    k < |entries| && entries[k].Entry? ==>
      match ChangeSection(d, entries[k].sec, entries[k].role, rule)
      case Fail(_, _) => true
      case Ok(next) => inv(next, k + 1, Note(found, d, entries[k].sec, entries[k].role))
  }

  /** A successful loop over the sections. */
  lemma SectionsEffect(m: Image, d: seq<byte>, r: Result, found: Found)
    requires Layout(m) && Reached(m, d, 0)
    requires ChangeEntries(d, m.entries, m.rule, 0, FoundIn(m, 0)) == (r, found) && r.Ok?
    ensures Reached(m, r.data, |m.entries|) && found == FoundIn(m, |m.entries|)
  {
    var inv := (d: seq<byte>, k: nat, found: Found) => Reached(m, d, k) && found == FoundIn(m, k);
    forall d, k: nat, found | inv(d, k, found) ensures KeptByStep(m.entries, m.rule, inv, d, k, found) {
      if k < |m.entries| && m.entries[k].Entry? && ChangeSection(d, m.entries[k].sec, m.entries[k].role, m.rule).Ok? {
        NextEntry(m, d, k);
      }
    }
    LoopKeeps(m.entries, m.rule, inv, d, 0, FoundIn(m, 0), r, found);
  }

  lemma NextEntry(m: Image, d: seq<byte>, k: nat)
    requires Layout(m) && k < |m.entries| && Reached(m, d, k)
    requires m.entries[k].Entry? && ChangeSection(d, m.entries[k].sec, m.entries[k].role, m.rule).Ok?
    ensures Reached(m, ChangeSection(d, m.entries[k].sec, m.entries[k].role, m.rule).data, k + 1)
    ensures Note(FoundIn(m, k), d, m.entries[k].sec, m.entries[k].role) == FoundIn(m, k + 1)
  {
    NextKept(m, d, k);
    NoteEffect(m, d, k, Patched(m)[..k + 1]);
    EarlierDone(m, d, ChangeSection(d, m.entries[k].sec, m.entries[k].role, m.rule).data, k);
  }

  lemma EarlierDone(m: Image, d: seq<byte>, next: seq<byte>, k: nat)
    requires Layout(m) && k < |m.entries| && DoneBelow(m, d, k) && InterpDone(m, d)
    requires Kept(next, d, [Patched(m)[k + 1]]) && SectionDone(m, next, k)
    ensures DoneBelow(m, next, k + 1) && InterpDone(m, next)
  {
    assert Apart(Patched(m)[0], Patched(m)[k + 1]);
    ReadKept(next, d, [Patched(m)[k + 1]], m.interp);
    forall i: nat | i < k ensures SectionDone(m, next, i) {
      assert Apart(Patched(m)[i + 1], Patched(m)[k + 1]);
      StaysDone(m, d, next, i, [Patched(m)[k + 1]]);
    }
  }

  // ---- The loader's tables ----

  /** The new directories; none without a directory table. */
  function Directories(m: Image): seq<seq<byte>> {
    match LastOf(m, Sysdirs, |m.entries|)
    case None => []
    case Some(a) => NewPaths(Paths(Contents(m, m.data, a)), m.rule)
  }

  /** The new tables fit into the sections that hold them. */
  predicate TablesFit(m: Image, w: nat) {
    match (LastOf(m, Sysdirs, |m.entries|), LastOf(m, Sysdirslen, |m.entries|))
    case (Some(a), Some(b)) => |Strings(Directories(m))| <= m.entries[a].sec.size &&
      |Lengths(Directories(m), w)| <= m.entries[b].sec.size
    case _ => true
  }

  /** The directory table holds the new paths, each with a NUL behind it, and the other one their lengths. */
  predicate TablesDone(m: Image, d: seq<byte>, w: nat) {
    match (LastOf(m, Sysdirs, |m.entries|), LastOf(m, Sysdirslen, |m.entries|))
    case (Some(a), Some(b)) =>
      var ps := Directories(m);
      && |Strings(ps)| <= m.entries[a].sec.size
      && Contents(m, d, a) == Strings(ps) + Zeros(m.entries[a].sec.size - |Strings(ps)|)
      && LengthsFit(ps, w) && ReadAt(d, m.entries[b].sec.offset, |Lengths(ps, w)|) == Lengths(ps, w)
    case _ => LastOf(m, Sysdirs, |m.entries|).None?
  }

  /** Writing both tables into regions apart from each other. */
  lemma TwoWrites(d: seq<byte>, a: Region, b: Region, text: seq<byte>, lengths: seq<byte>)
    requires Apart(a, b) && |text| == a.size && |lengths| <= b.size && InBounds(d, [a, b])
    ensures var after := WriteAt(WriteAt(d, a.at, text), b.at, lengths);
            Kept(after, d, [a, b]) && ReadAt(after, a.at, a.size) == text && ReadAt(after, b.at, |lengths|) == lengths
  {
    assert [a, b][0] == a && [a, b][1] == b;
    var first := WriteAt(d, a.at, text);
    var after := WriteAt(first, b.at, lengths);
    WriteKept(d, a.at, text, a);
    WriteKept(first, b.at, lengths, b);
    ReadKept(after, first, [b], a);
    KeptTrans(after, first, d, [b], [a]);
    assert [a] + [b] == [a, b];
  }

  /** All that a successful run does. */
  ghost predicate Finished(m: Image, d: seq<byte>, w: nat) {
    Kept(d, m.data, Patched(m)) && DoneBelow(m, d, |m.entries|) && InterpDone(m, d) && TablesDone(m, d, w)
  }

  lemma BothTables(m: Image, d: seq<byte>, a: nat, b: nat, w: nat, text: seq<byte>)
    requires Layout(m) && Kept(d, m.data, Patched(m)) && DoneBelow(m, d, |m.entries|) && InterpDone(m, d)
    requires LastOf(m, Sysdirs, |m.entries|) == Some(a) && LastOf(m, Sysdirslen, |m.entries|) == Some(b)
    requires TablesFit(m, w) && LengthsFit(Directories(m), w)
    requires text == Strings(Directories(m)) + Zeros(m.entries[a].sec.size - |Strings(Directories(m))|)
    ensures Finished(m, WriteAt(WriteAt(d, m.entries[a].sec.offset, text), m.entries[b].sec.offset,
            Lengths(Directories(m), w)), w)
  {
    var lengths := Lengths(Directories(m), w);
    TwoKept(m, d, a, b, text, lengths);
  }

  /** Tables that fit, written in place of the old ones, leave everything else done. */
  lemma TwoKept(m: Image, d: seq<byte>, a: nat, b: nat, text: seq<byte>, lengths: seq<byte>)
    requires Layout(m) && Kept(d, m.data, Patched(m)) && DoneBelow(m, d, |m.entries|) && InterpDone(m, d)
    requires HasRole(m, a, Sysdirs) && HasRole(m, b, Sysdirslen)
    requires |text| == m.entries[a].sec.size && |lengths| <= m.entries[b].sec.size
    ensures var after := WriteAt(WriteAt(d, m.entries[a].sec.offset, text), m.entries[b].sec.offset, lengths);
            && Kept(after, m.data, Patched(m)) && DoneBelow(m, after, |m.entries|) && InterpDone(m, after)
            && Contents(m, after, a) == text && ReadAt(after, m.entries[b].sec.offset, |lengths|) == lengths
  {
    var rs := Patched(m);
    var after := WriteAt(WriteAt(d, m.entries[a].sec.offset, text), m.entries[b].sec.offset, lengths);
    assert Apart(rs[a + 1], rs[b + 1]);
    TwoWrites(d, rs[a + 1], rs[b + 1], text, lengths);
    OthersStayDone(m, d, after, a, b);
    KeptTrans(after, d, m.data, [rs[a + 1], rs[b + 1]], rs);
    KeptMore(after, m.data, rs + [rs[a + 1], rs[b + 1]], rs);
  }

  /** What is written of the tables, and where. */
  ghost predicate TablesWritten(d: seq<byte>, after: seq<byte>, w: nat, rule: Rule, found: Found) {
    match found.sysdirs
    case None => after == d
    case Some((sysdirs, sec)) =>
      && found.sysdirslen.Some?
      && var ps := NewPaths(Paths(sysdirs), rule);
         && LengthsFit(ps, w)
         && (|Strings(ps)| <= sec.size ==>
               after == WriteAt(WriteAt(d, sec.offset, Strings(ps) + Zeros(sec.size - |Strings(ps)|)),
                                found.sysdirslen.value.offset, Lengths(ps, w)))
  }

  lemma WhatIsWritten(d: seq<byte>, h: Header, rule: Rule, found: Found, after: seq<byte>)
    requires ChangeTables(d, h, rule, found) == Ok(after)
    ensures TablesWritten(d, after, WordSize(h.arch), rule, found)
  {
    assert Zeros(0) == [];
  }

  lemma TablesEffect(m: Image, d: seq<byte>, after: seq<byte>, w: nat)
    requires Layout(m) && Reached(m, d, |m.entries|) && TablesFit(m, w) &&
             TablesWritten(d, after, w, m.rule, FoundIn(m, |m.entries|))
    ensures Finished(m, after, w)
  {
    assert Patched(m)[..|m.entries| + 1] == Patched(m);
    if LastOf(m, Sysdirs, |m.entries|).Some? {
      var a := LastOf(m, Sysdirs, |m.entries|).value;
      BothTables(m, d, a, LastOf(m, Sysdirslen, |m.entries|).value, w,
          Strings(Directories(m)) + Zeros(m.entries[a].sec.size - |Strings(Directories(m))|));
    }
  }

  lemma OthersStayDone(m: Image, d: seq<byte>, after: seq<byte>, a: nat, b: nat)
    requires Layout(m) && HasRole(m, a, Sysdirs) && HasRole(m, b, Sysdirslen)
    requires Kept(after, d, [Patched(m)[a + 1], Patched(m)[b + 1]])
    ensures DoneBelow(m, d, |m.entries|) ==> DoneBelow(m, after, |m.entries|)
    ensures InterpDone(m, d) ==> InterpDone(m, after)
  {
    var rs := Patched(m);
    var two := [rs[a + 1], rs[b + 1]];
    forall i: nat | i < |m.entries| && SectionDone(m, d, i) ensures SectionDone(m, after, i) {
      if i != a && i != b {
        assert Apart(rs[i + 1], rs[a + 1]) && Apart(rs[i + 1], rs[b + 1]);
        StaysDone(m, d, after, i, two);
      }
    }
    assert Apart(rs[0], rs[a + 1]) && Apart(rs[0], rs[b + 1]);
    ReadKept(after, d, two, m.interp);
  }

  // ---- The whole run ----

  /** Where an image is relocated successfully, only the patched regions change, and all of them are done. */
  lemma RelocationEffect(data: seq<byte>, prefix: seq<byte>, dl_path: seq<byte>)
    requires |data| >= 64 && GetArch(data).Some?
    requires var (arch, e) := GetArch(data).value;
             var m := ImageOf(data, ParseHeader(data, arch, e), InstallRule(prefix), dl_path);
             Layout(m) && TablesFit(m, WordSize(arch))
    requires RelocateImage(data, prefix, dl_path).0.Ok?
    ensures var (arch, e) := GetArch(data).value;
            var h := ParseHeader(data, arch, e);
            var (r, ok) := RelocateImage(data, prefix, dl_path);
            Finished(ImageOf(data, h, InstallRule(prefix), dl_path), r.data, WordSize(arch)) &&
                (ok <==> InterpreterFits(data, h, dl_path))
  {
    var (arch, e) := GetArch(data).value;
    var h := ParseHeader(data, arch, e);
    var m := ImageOf(data, h, InstallRule(prefix), dl_path);
    assert m.interp == Patched(m)[0];
    InterpreterEffect(m, h);
    DlSysdirsEffect(m, h, ChangeInterpreter(data, h, dl_path, 0).data);
  }

  /** The section names read after the interpreter was changed are those of the original image. */
  lemma NamesKept(m: Image, h: Header, d: seq<byte>)
    requires m == ImageOf(m.data, h, m.rule, m.dl_path) && Layout(m) && Kept(d, m.data, [m.interp])
    ensures SectionAt(d, h, h.shstrndx) == SectionAt(m.data, h, h.shstrndx)
    ensures var names := Names(m.data, h);
            ReadAt(d, names.at, names.size) == ReadAt(m.data, names.at, names.size)
  {
    var head, names := m.tables[h.shnum], m.tables[h.shnum + 1];
    assert head == SectionHeader(h, h.shstrndx) && names == Names(m.data, h);
    ApartFromFirst(m, head);
    ReadKept(d, m.data, [m.interp], head);
    ApartFromFirst(m, names);
    ReadKept(d, m.data, [m.interp], names);
  }

  lemma ApartFromFirst(m: Image, r: Region)
    requires Layout(m) && r in m.tables
    ensures ApartFromAll(r, [m.interp])
  {
    assert Apart(r, Patched(m)[0]);
  }

  lemma DlSysdirsEffect(m: Image, h: Header, d: seq<byte>)
    requires m == ImageOf(m.data, h, m.rule, m.dl_path) && Layout(m) && TablesFit(m, WordSize(h.arch))
    requires Kept(d, m.data, [m.interp]) && InterpDone(m, d) && ChangeDlSysdirs(d, h, m.rule).Ok?
    ensures Finished(m, ChangeDlSysdirs(d, h, m.rule).data, WordSize(h.arch))
  {
    var names := Names(m.data, h);
    var strtab := ReadAt(m.data, names.at, names.size);
    NamesKept(m, h, d);
    assert Patched(m)[..1] == [m.interp];
    HeadersKept(m, h, strtab, d, 0, FoundIn(m, 0));
    var (r, found) := ChangeEntries(d, m.entries, m.rule, 0, FoundIn(m, 0));
    DlSysdirsStep(d, h, m.rule, strtab, r, found);
    SectionsEffect(m, d, r, found);
    var after := ChangeDlSysdirs(d, h, m.rule).data;
    WhatIsWritten(r.data, h, m.rule, found, after);
    TablesEffect(m, r.data, after, WordSize(h.arch));
  }

  lemma DlSysdirsStep(d: seq<byte>, h: Header, rule: Rule, strtab: seq<byte>, r: Result, found: Found)
    requires SectionAt(d, h, h.shstrndx).Some?
    requires var names := SectionAt(d, h, h.shstrndx).value; strtab == ReadAt(d, names.offset, names.size)
    requires ChangeSections(d, h, strtab, rule, 0, Found(None, None)) == (r, found)
    ensures ChangeDlSysdirs(d, h, rule) == if r.Ok? then ChangeTables(r.data, h, rule, found) else r
  {
  }
}
