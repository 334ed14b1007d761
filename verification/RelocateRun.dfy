/** The relocator as it runs: seeks, reads and writes on one open file. */
module RelocateRun {
  import opened Wrappers
  import opened Sequences
  import opened Bytes
  import opened Relocate

  method RunSegment(f: ElfFile, p_offset: nat, p_filesz: nat, dl_path: seq<byte>) returns (r: InterpResult)
    modifies f
    ensures r == ChangeSegment(old(f.data), p_offset, p_filesz, dl_path) && r.Interp? && f.data == r.data
  {
    f.Seek(p_offset);
    var fname := f.Read(11);
    if SystemInterpreter(fname) {
      return Interp(f.data, true);
    }
    if p_filesz == 0 {
      return Interp(f.data, true);
    }
    if |dl_path| >= p_filesz {
      return Interp(f.data, false);
    }
    f.Seek(p_offset);
    f.Write(dl_path + Zeros(p_filesz - |dl_path|));
    r := Interp(f.data, true);
  }

  method ReadSegment(f: ElfFile, h: Header, i: nat) returns (r: Option<(nat, nat, nat)>)
    modifies f`pos
    ensures r == SegmentAt(f.data, h, i)
  {
    f.Seek(h.phoff + i * h.phentsize);
    var ph_hdr := f.Read(h.phentsize);
    r := ParseSegment(h, ph_hdr);
  }

  /** The loop over the program headers that looks for PT_INTERP. */
  method RunInterpreter(f: ElfFile, h: Header, dl_path: seq<byte>) returns (r: InterpResult)
    modifies f
    ensures r == ChangeInterpreter(old(f.data), h, dl_path, 0)
    ensures r.Interp? ==> f.data == r.data
    ensures r.InterpError? ==> f.data == old(f.data)
  {
    for i := 0 to h.phnum
      invariant f.data == old(f.data)
      invariant ChangeInterpreter(f.data, h, dl_path, 0) == ChangeInterpreter(f.data, h, dl_path, i)
    {
      var segment := ReadSegment(f, h, i);
      if segment.None? {
        return InterpError;
      }
      var (p_type, p_offset, p_filesz) := segment.value;
      if p_type == PT_INTERP {
        r := RunSegment(f, p_offset, p_filesz, dl_path);
        return;
      }
    }
    r := Interp(f.data, true);
  }

  /** The loop over the blocks; the file position stays at the block to be read next. */
  method RunBlocks(f: ElfFile, sec: Section, rule: Rule) returns (r: Result)
    requires f.pos == sec.offset
    modifies f
    ensures r == ChangeBlocks(old(f.data), sec, rule, 0) && f.data == r.data
  {
    ghost var data := f.data;
    var offset := 0;
    while offset + 4096 <= sec.size
      invariant f.pos == sec.offset + offset
      invariant ChangeBlocks(data, sec, rule, 0) == ChangeBlocks(f.data, sec, rule, offset)
      decreases sec.size - offset
    {
      var path := f.Read(4096);
      var new_path := Padded(Substitute(path, rule), 4096);
      if new_path.None? {
        return Fail(f.data, NoRoom);
      }
      f.Seek(sec.offset + offset);
      f.Write(new_path.value);
      offset := offset + 4096;
    }
    r := Ok(f.data);
  }

  /** What is done with one section. */
  method RunSection(f: ElfFile, sec: Section, role: Role, rule: Rule, found: Found) returns (r: Result, found': Found)
    modifies f
    ensures r == ChangeSection(old(f.data), sec, role, rule) && f.data == r.data
    ensures found' == if r.Ok? then Note(found, old(f.data), sec, role) else found
  {
    found' := found;
    f.Seek(sec.offset);
    match role {
      case Sysdirs =>
        var sysdirs := f.Read(sec.size);
        found' := found.(sysdirs := Some((sysdirs, sec)));
        r := Ok(f.data);
      case Sysdirslen =>
        var _ := f.Read(sec.size);
        found' := found.(sysdirslen := Some(sec));
        r := Ok(f.data);
      case Ldsocache =>
        var ldsocache_path := f.Read(sec.size);
        var new_path := Padded(Substitute(ldsocache_path, rule), sec.size);
        if new_path.None? {
          return Fail(f.data, NoRoom), found;
        }
        f.Seek(sec.offset);
        f.Write(new_path.value);
        r := Ok(f.data);
      case Gccrelocprefix =>
        r := RunBlocks(f, sec, rule);
      case Untouched =>
        r := Ok(f.data);
    }
  }

  method ReadSection(f: ElfFile, h: Header, i: nat) returns (r: Option<Section>)
    modifies f`pos
    ensures r == SectionAt(f.data, h, i)
  {
    f.Seek(h.shoff + i * h.shentsize);
    var sh_hdr := f.Read(h.shentsize);
    r := ParseSection(h, sh_hdr);
  }

  method RunSections(f: ElfFile, h: Header, strtab: seq<byte>, rule: Rule) returns (r: Result, found: Found)
    modifies f
    ensures (r, found) == ChangeSections(old(f.data), h, strtab, rule, 0, Found(None, None)) && f.data == r.data
  {
    ghost var data := f.data;
    found := Found(None, None);
    for i := 0 to h.shnum
      invariant ChangeSections(data, h, strtab, rule, 0, Found(None, None)) ==
                ChangeSections(f.data, h, strtab, rule, i, found)
    {
      var sec := ReadSection(f, h, i);
      if sec.None? {
        return Fail(f.data, StructError), found;
      }
      var role := RoleOf(strtab, sec.value);
      ghost var before := f.data;
      r, found := RunSection(f, sec.value, role, rule, found);
      if r.Fail? {
        return;
      }
    }
    r := Ok(f.data);
  }

  /** The paths in `done` are in both tables, those in `rest` are still to come. */
  ghost predicate Built(all: seq<seq<byte>>, done: seq<seq<byte>>, rest: seq<seq<byte>>, rule: Rule, w: nat,
                        text: seq<byte>, lengths: seq<byte>) {
    done + NewPaths(rest, rule) == all && LengthsFit(done, w) && text == Strings(done) && lengths == Lengths(done, w)
  }

  lemma NextPath(all: seq<seq<byte>>, done: seq<seq<byte>>, rest: seq<seq<byte>>, rule: Rule, w: nat, text: seq<byte>,
                 lengths: seq<byte>)
    requires Built(all, done, rest, rule, w, text, lengths) && rest != []
    ensures var new_path := Substitute(rest[0], rule);
            if |new_path| >= Pow256(w) then !LengthsFit(all, w)
            else Built(all, done + [new_path], rest[1..], rule, w, text + (new_path + [0]),
                lengths + EncodeLittle(|new_path|, w))
  {
    var new_path := Substitute(rest[0], rule);
    Assoc(done, [new_path], NewPaths(rest[1..], rule));
    assert all[|done|] == new_path;
    StringsAppend(done, new_path);
    LengthsAppend(done, new_path, w);
  }

  /** The loop over the old paths that builds both tables. */
  method BuildTables(sysdirs: seq<byte>, rule: Rule, w: nat) returns (ok: bool, text: seq<byte>, lengths: seq<byte>)
    ensures var ps := NewPaths(Paths(sysdirs), rule);
            && (ok <==> LengthsFit(ps, w))
            && (ok ==> text == Strings(ps) && lengths == Lengths(ps, w))
  {
    text, lengths := [], [];
    var rest := Paths(sysdirs);
    ghost var all := NewPaths(rest, rule);
    ghost var done: seq<seq<byte>> := [];
    assert done + all == all;
    while rest != []
      invariant Built(all, done, rest, rule, w, text, lengths)
      decreases |rest|
    {
      NextPath(all, done, rest, rule, w, text, lengths);
      var new_path := Substitute(rest[0], rule);
      if |new_path| >= Pow256(w) {
        return false, text, lengths;
      }
      text := text + (new_path + [0]);
      lengths := lengths + EncodeLittle(|new_path|, w);
      done, rest := done + [new_path], rest[1..];
    }
    assert done + [] == done;
    ok := true;
  }

  lemma {:induction false} StringsAppend(ps: seq<seq<byte>>, p: seq<byte>)
    ensures Strings(ps + [p]) == Strings(ps) + (p + [0])
  {
    if ps == [] {
      assert (ps + [p])[1..] == [] && Strings([]) == [];
    } else {
      assert (ps + [p])[1..] == ps[1..] + [p];
      StringsAppend(ps[1..], p);
      Assoc(ps[0] + [0], Strings(ps[1..]), p + [0]);
    }
  }

  lemma {:induction false} LengthsAppend(ps: seq<seq<byte>>, p: seq<byte>, w: nat)
    ensures Lengths(ps + [p], w) == Lengths(ps, w) + EncodeLittle(|p|, w)
  {
    if ps == [] {
      assert (ps + [p])[1..] == [];
    } else {
      assert (ps + [p])[1..] == ps[1..] + [p];
      LengthsAppend(ps[1..], p, w);
      Assoc(EncodeLittle(|ps[0]|, w), Lengths(ps[1..], w), EncodeLittle(|p|, w));
    }
  }

  method RunTables(f: ElfFile, h: Header, rule: Rule, found: Found) returns (r: Result)
    modifies f
    ensures r == ChangeTables(old(f.data), h, rule, found) && f.data == r.data
  {
    if found.sysdirs.None? {
      return Ok(f.data);
    }
    if found.sysdirslen.None? {
      return Fail(f.data, UnboundName);
    }
    var (sysdirs, sec) := found.sysdirs.value;
    var ok, text, lengths := BuildTables(sysdirs, rule, WordSize(h.arch));
    if !ok {
      return Fail(f.data, StructError);
    }
    text := FillUp(text, sec.size);
    WriteTables(f, sec.offset, text, found.sysdirslen.value.offset, lengths);
    r := Ok(f.data);
  }

  method FillUp(text: seq<byte>, size: nat) returns (padded: seq<byte>)
    ensures padded == Filled(text, size)
  {
    padded := text;
    if |text| < size {
      padded := text + Zeros(size - |text|);
    } else {
      assert text + [] == text;
    }
  }

  method WriteTables(f: ElfFile, sysdirs_off: nat, text: seq<byte>, sysdirslen_off: nat, lengths: seq<byte>)
    modifies f
    ensures f.data == WriteAt(WriteAt(old(f.data), sysdirs_off, text), sysdirslen_off, lengths)
  {
    f.Seek(sysdirs_off);
    f.Write(text);
    f.Seek(sysdirslen_off);
    f.Write(lengths);
  }

  method RunDlSysdirs(f: ElfFile, h: Header, rule: Rule) returns (r: Result)
    modifies f
    ensures r == ChangeDlSysdirs(old(f.data), h, rule) && f.data == r.data
  {
    var sec := ReadSection(f, h, h.shstrndx);
    if sec.None? {
      return Fail(f.data, StructError);
    }
    f.Seek(sec.value.offset);
    var sh_strtab := f.Read(sec.value.size);
    var found;
    r, found := RunSections(f, h, sh_strtab, rule);
    if r.Ok? {
      r := RunTables(f, h, rule, found);
    }
  }

  /** The body of the main loop for one executable. */
  method RunImage(f: ElfFile, prefix: seq<byte>, dl_path: seq<byte>) returns (r: Result, ok: bool)
    modifies f
    ensures (r, ok) == RelocateImage(old(f.data), prefix, dl_path) && f.data == r.data
  {
    ok := true;
    if |f.data| < 64 {
      return Ok(f.data), true;
    }
    var arch := GetArch(f.data);
    if arch.None? {
      return Ok(f.data), true;
    }
    var h := ParseHeader(f.data, arch.value.0, arch.value.1);
    var interp := RunInterpreter(f, h, dl_path);
    if interp.InterpError? {
      return Fail(f.data, StructError), true;
    }
    ok := interp.ok;
    r := RunDlSysdirs(f, h, InstallRule(prefix));
  }
}
