/** When relocation succeeds: on a well laid out image, exactly if everything that is written finds room. */
module RelocateSuccess {
  import opened Wrappers
  import opened Bytes
  import opened Relocate
  import opened RelocateProofs

  // ---- What has to fit ----

  /** The substituted text at `at` leaves room for a NUL. */
  predicate PathFits(data: seq<byte>, at: nat, size: nat, rule: Rule) {
    |StripNuls(Substitute(ReadAt(data, at, size), rule))| < size
  }

  predicate BlocksFit(data: seq<byte>, sec: Section, first: nat, rule: Rule) {
    forall b: nat | first <= b < sec.size / 4096 :: PathFits(data, sec.offset + b * 4096, 4096, rule)
  }

  /** The loader cache path, or every whole prefix block, of the section fits. */
  predicate SectionFits(m: Image, k: nat) {
    && (HasRole(m, k, Ldsocache) ==> PathFits(m.data, m.entries[k].sec.offset, m.entries[k].sec.size, m.rule))
    && (HasRole(m, k, Gccrelocprefix) ==> BlocksFit(m.data, m.entries[k].sec, 0, m.rule))
  }

  predicate AllFit(m: Image) {
    forall k: nat | k < |m.entries| :: m.entries[k].Entry? && SectionFits(m, k)
  }

  /** A directory table has a table of lengths, and each length fits its word. */
  predicate TablesPack(m: Image, w: nat) {
    LastOf(m, Sysdirs, |m.entries|).Some? ==>
      LastOf(m, Sysdirslen, |m.entries|).Some? && LengthsFit(Directories(m), w)
  }

  /** The program headers up to the first PT_INTERP have the size of the format. */
  predicate InterpReadable(data: seq<byte>, h: Header, i: nat)
    decreases h.phnum - i
  {
    i >= h.phnum || (
      && SegmentAt(data, h, i).Some?
      && (SegmentAt(data, h, i).value.0 == PT_INTERP || InterpReadable(data, h, i + 1)))
  }

  // ---- The parts ----

  lemma {:induction false} InterpreterSucceeds(data: seq<byte>, h: Header, dl_path: seq<byte>, i: nat)
    ensures ChangeInterpreter(data, h, dl_path, i).Interp? <==> InterpReadable(data, h, i)
    decreases h.phnum - i
  {
    if i < h.phnum && SegmentAt(data, h, i).Some? && SegmentAt(data, h, i).value.0 != PT_INTERP {
      InterpreterSucceeds(data, h, dl_path, i + 1);
    }
  }

  lemma NextBlock(d: seq<byte>, sec: Section, b: nat, rule: Rule) returns (next: seq<byte>)
    requires b < sec.size / 4096 && Block(sec, b).at + 4096 <= |d| && PathFits(d, sec.offset + b * 4096, 4096, rule)
    ensures Kept(next, d, [Block(sec, b)])
    ensures ChangeBlocks(d, sec, rule, b * 4096) == ChangeBlocks(next, sec, rule, (b + 1) * 4096)
  {
    var at := sec.offset + b * 4096;
    var path := Padded(Substitute(ReadAt(d, at, 4096), rule), 4096).value;
    next := WriteAt(d, at, path);
    WriteKept(d, at, path, Region(at, 4096));
    BlockStep(d, sec, b * 4096, rule, path);
  }

  lemma BlockStep(d: seq<byte>, sec: Section, offset: nat, rule: Rule, path: seq<byte>)
    requires offset + 4096 <= sec.size
    requires Padded(Substitute(ReadAt(d, sec.offset + offset, 4096), rule), 4096) == Some(path)
    ensures ChangeBlocks(d, sec, rule, offset) ==
            ChangeBlocks(WriteAt(d, sec.offset + offset, path), sec, rule, offset + 4096)
  {
  }

  /** Blocks that read the same fit alike. */
  lemma BlocksFitAlike(d: seq<byte>, next: seq<byte>, sec: Section, first: nat, rule: Rule)
    requires forall b: nat | first <= b < sec.size / 4096 ::
               ReadAt(next, sec.offset + b * 4096, 4096) == ReadAt(d, sec.offset + b * 4096, 4096)
    ensures BlocksFit(next, sec, first, rule) <==> BlocksFit(d, sec, first, rule)
  {
    forall b: nat | first <= b < sec.size / 4096
      ensures PathFits(next, sec.offset + b * 4096, 4096, rule) <==> PathFits(d, sec.offset + b * 4096, 4096, rule)
    {
    }
  }

  lemma {:induction false} BlocksSucceed(d: seq<byte>, sec: Section, b: nat, rule: Rule)
    requires b <= sec.size / 4096 && InBounds(d, [BlocksFrom(sec, b)])
    ensures ChangeBlocks(d, sec, rule, b * 4096).Ok? <==> BlocksFit(d, sec, b, rule)
    decreases sec.size / 4096 - b, 1
  {
    if b < sec.size / 4096 {
      if PathFits(d, sec.offset + b * 4096, 4096, rule) {
        FittingBlock(d, sec, b, rule);
      } else {
        BlockFails(d, sec, b, rule);
      }
    }
  }

  lemma {:induction false} FittingBlock(d: seq<byte>, sec: Section, b: nat, rule: Rule)
    requires b < sec.size / 4096 && InBounds(d, [BlocksFrom(sec, b)]) && PathFits(d, sec.offset + b * 4096, 4096, rule)
    ensures ChangeBlocks(d, sec, rule, b * 4096).Ok? <==> BlocksFit(d, sec, b, rule)
    decreases sec.size / 4096 - b, 0
  {
    assert [BlocksFrom(sec, b)][0] == BlocksFrom(sec, b);
    var next := NextBlock(d, sec, b, rule);
    BlocksSucceed(next, sec, b + 1, rule);
    LaterFitAlike(d, next, sec, b, rule);
  }

  lemma LaterBlocks(d: seq<byte>, next: seq<byte>, sec: Section, b: nat)
    requires Kept(next, d, [Block(sec, b)])
    ensures forall c: nat | b < c :: ReadAt(next, sec.offset + c * 4096, 4096) == ReadAt(d, sec.offset + c * 4096, 4096)
  {
    forall c: nat | b < c
      ensures ReadAt(next, sec.offset + c * 4096, 4096) == ReadAt(d, sec.offset + c * 4096, 4096)
    {
      ReadKept(next, d, [Block(sec, b)], Block(sec, c));
    }
  }

  lemma LaterFitAlike(d: seq<byte>, next: seq<byte>, sec: Section, b: nat, rule: Rule)
    requires b < sec.size / 4096 && PathFits(d, sec.offset + b * 4096, 4096, rule) && Kept(next, d, [Block(sec, b)])
    ensures BlocksFit(d, sec, b, rule) <==> BlocksFit(next, sec, b + 1, rule)
  {
    LaterBlocks(d, next, sec, b);
    BlocksFitAlike(d, next, sec, b + 1, rule);
    FirstBlockFits(d, sec, b, rule);
  }

  lemma FirstBlockFits(d: seq<byte>, sec: Section, b: nat, rule: Rule)
    requires b < sec.size / 4096 && PathFits(d, sec.offset + b * 4096, 4096, rule)
    ensures BlocksFit(d, sec, b, rule) <==> BlocksFit(d, sec, b + 1, rule)
  {
  }

  lemma BlockFails(d: seq<byte>, sec: Section, b: nat, rule: Rule)
    requires b < sec.size / 4096 && !PathFits(d, sec.offset + b * 4096, 4096, rule)
    ensures ChangeBlocks(d, sec, rule, b * 4096).Fail? && !BlocksFit(d, sec, b, rule)
  {
  }

  lemma SectionSucceeds(m: Image, d: seq<byte>, k: nat, rs: seq<Region>)
    requires k < |m.entries| && m.entries[k].Entry? && ApartFromAll(SectionRegion(m.entries[k]), rs)
    requires InBounds(m.data, [SectionRegion(m.entries[k])]) && Kept(d, m.data, rs)
    ensures ChangeSection(d, m.entries[k].sec, m.entries[k].role, m.rule).Ok? <==> SectionFits(m, k)
  {
    var sec, r := m.entries[k].sec, SectionRegion(m.entries[k]);
    assert [r][0] == r;
    if HasRole(m, k, Ldsocache) {
      ReadKept(d, m.data, rs, r);
    } else if HasRole(m, k, Gccrelocprefix) {
      BlocksSucceed(d, sec, 0, m.rule);
      AllBlocks(d, m.data, sec, rs);
      BlocksFitAlike(m.data, d, sec, 0, m.rule);
    }
  }

  lemma AllBlocks(d: seq<byte>, data: seq<byte>, sec: Section, rs: seq<Region>)
    requires Kept(d, data, rs) && ApartFromAll(Region(sec.offset, sec.size / 4096 * 4096), rs)
    ensures forall b: nat | b < sec.size / 4096 ::
              ReadAt(d, sec.offset + b * 4096, 4096) == ReadAt(data, sec.offset + b * 4096, 4096)
  {
    forall b: nat | b < sec.size / 4096
      ensures ReadAt(d, sec.offset + b * 4096, 4096) == ReadAt(data, sec.offset + b * 4096, 4096)
    {
      Within(Block(sec, b), Region(sec.offset, sec.size / 4096 * 4096), rs);
      ReadKept(d, data, rs, Block(sec, b));
    }
  }

  // ---- The loop over the sections ----

  ghost predicate StepSucceeds(entries: seq<Entry>, rule: Rule, inv: (seq<byte>, nat) -> bool, fits: nat -> bool,
                               d: seq<byte>, k: nat) {
    k < |entries| && entries[k].Entry? ==>
      match ChangeSection(d, entries[k].sec, entries[k].role, rule)
      case Fail(_, _) => !fits(k)
      case Ok(next) => fits(k) && inv(next, k + 1)
  }

  /** The loop succeeds exactly if each of its steps does. */
  lemma {:induction false} LoopSucceeds(entries: seq<Entry>, rule: Rule, inv: (seq<byte>, nat) -> bool,
                                        fits: nat -> bool, d: seq<byte>, k: nat, found: Found)
    requires forall d, k: nat :: inv(d, k) ==> StepSucceeds(entries, rule, inv, fits, d, k)
    requires k <= |entries| && inv(d, k)
    ensures ChangeEntries(d, entries, rule, k, found).0.Ok? <==>
            forall i: nat | k <= i < |entries| :: entries[i].Entry? && fits(i)
    decreases |entries| - k
  {
    if k < |entries| && entries[k].Entry? {
      assert StepSucceeds(entries, rule, inv, fits, d, k);
      match ChangeSection(d, entries[k].sec, entries[k].role, rule)
      case Fail(_, _) =>
      case Ok(next) =>
        LoopSucceeds(entries, rule, inv, fits, next, k + 1, Note(found, d, entries[k].sec, entries[k].role));
    }
  }

  lemma SectionsSucceed(m: Image, d: seq<byte>, found: Found)
    requires Layout(m) && Reached(m, d, 0)
    ensures ChangeEntries(d, m.entries, m.rule, 0, found).0.Ok? <==> AllFit(m)
  {
    var inv := (d: seq<byte>, k: nat) => Reached(m, d, k);
    var fits := (k: nat) => SectionFits(m, k);
    forall d, k: nat | inv(d, k) ensures StepSucceeds(m.entries, m.rule, inv, fits, d, k) {
      if k < |m.entries| && m.entries[k].Entry? {
        EntrySucceeds(m, d, k);
      }
    }
    LoopSucceeds(m.entries, m.rule, inv, fits, d, 0, found);
  }

  lemma EntrySucceeds(m: Image, d: seq<byte>, k: nat)
    requires Layout(m) && Reached(m, d, k) && k < |m.entries| && m.entries[k].Entry?
    ensures match ChangeSection(d, m.entries[k].sec, m.entries[k].role, m.rule)
            case Fail(_, _) => !SectionFits(m, k)
            case Ok(next) => SectionFits(m, k) && Reached(m, next, k + 1)
  {
    ApartFromOthers(Patched(m), k + 1);
    assert Patched(m)[k + 1] == SectionRegion(m.entries[k]);
    SectionSucceeds(m, d, k, Patched(m)[..k + 1]);
    if ChangeSection(d, m.entries[k].sec, m.entries[k].role, m.rule).Ok? {
      NextEntry(m, d, k);
    }
  }

  lemma TablesSucceed(m: Image, d: seq<byte>, h: Header)
    ensures ChangeTables(d, h, m.rule, FoundIn(m, |m.entries|)).Ok? <==> TablesPack(m, WordSize(h.arch))
  {
  }

  // ---- The whole run ----

  lemma DlSysdirsSucceeds(m: Image, h: Header, d: seq<byte>)
    requires m == ImageOf(m.data, h, m.rule, m.dl_path) && Layout(m)
    requires Kept(d, m.data, [m.interp]) && InterpDone(m, d)
    ensures ChangeDlSysdirs(d, h, m.rule).Ok? <==>
            SectionAt(m.data, h, h.shstrndx).Some? && AllFit(m) && TablesPack(m, WordSize(h.arch))
  {
    NamesKept(m, h, d);
    if SectionAt(m.data, h, h.shstrndx).Some? {
      var names := Names(m.data, h);
      var strtab := ReadAt(m.data, names.at, names.size);
      assert Patched(m)[..1] == [m.interp];
      HeadersKept(m, h, strtab, d, 0, FoundIn(m, 0));
      var (r, found) := ChangeEntries(d, m.entries, m.rule, 0, FoundIn(m, 0));
      DlSysdirsStep(d, h, m.rule, strtab, r, found);
      SectionsSucceed(m, d, FoundIn(m, 0));
      if r.Ok? {
        SectionsEffect(m, d, r, found);
        TablesSucceed(m, r.data, h);
      }
    }
  }

  /**
   A well laid out image is relocated successfully exactly if its headers can be read, every loader cache
   path and every whole prefix block leaves room for a NUL, and the table of lengths is there, with words
   that hold the lengths, where the directory table is.
   */
  lemma RelocationSucceeds(data: seq<byte>, prefix: seq<byte>, dl_path: seq<byte>)
    requires |data| >= 64 && GetArch(data).Some?
    requires var (arch, e) := GetArch(data).value;
             Layout(ImageOf(data, ParseHeader(data, arch, e), InstallRule(prefix), dl_path))
    ensures var (arch, e) := GetArch(data).value;
            var h := ParseHeader(data, arch, e);
            var m := ImageOf(data, h, InstallRule(prefix), dl_path);
            RelocateImage(data, prefix, dl_path).0.Ok? <==>
              && InterpReadable(data, h, 0) && SectionAt(data, h, h.shstrndx).Some?
              && AllFit(m) && TablesPack(m, WordSize(arch))
  {
    var (arch, e) := GetArch(data).value;
    var h := ParseHeader(data, arch, e);
    var m := ImageOf(data, h, InstallRule(prefix), dl_path);
    assert m.interp == Patched(m)[0];
    InterpreterSucceeds(data, h, dl_path, 0);
    if ChangeInterpreter(data, h, dl_path, 0).Interp? {
      InterpreterEffect(m, h);
      DlSysdirsSucceeds(m, h, ChangeInterpreter(data, h, dl_path, 0).data);
    }
  }
}
