/**
 What the parts of the relocator mean, without a word of how they compute it: the substitution, reading and
 writing, section names, the interpreter, and what becomes of a path below the built-in prefix.
 */
module RelocateMeaning {
  import opened Wrappers
  import opened Sequences
  import opened Bytes
  import opened Relocate
  import opened RelocateProofs
  import opened LoaderTables

  // ---- Substitution ----

  predicate OccursAt(f: seq<byte>, s: seq<byte>, i: nat) {
    i <= |s| && f <= s[i..]
  }

  ghost predicate Absent(f: seq<byte>, s: seq<byte>) {
    forall i: nat | i <= |s| :: !OccursAt(f, s, i)
  }

  lemma AbsentBehind(f: seq<byte>, s: seq<byte>, n: nat)
    requires Absent(f, s) && n <= |s|
    ensures Absent(f, s[n..])
  {
    forall i: nat | i <= |s| - n ensures !OccursAt(f, s[n..], i) {
      assert s[n..][i..] == s[n + i..];
      assert !OccursAt(f, s, n + i);
    }
  }

  /** Without an occurrence nothing is replaced. */
  lemma {:induction false} ReplaceAbsent(s: seq<byte>, f: seq<byte>, to: seq<byte>)
    requires f != [] && Absent(f, s)
    ensures Replace(s, f, to) == s
    decreases |s|
  {
    if s != [] {
      assert s[0..] == s && !OccursAt(f, s, 0);
      AbsentBehind(f, s, 1);
      ReplaceAbsent(s[1..], f, to);
    }
  }

  /** In `a + f + b`, `f` occurs first behind `a`. */
  ghost predicate NoneBefore(f: seq<byte>, a: seq<byte>, b: seq<byte>) {
    forall i: nat | i < |a| :: !OccursAt(f, a + f + b, i)
  }

  lemma NoneBeforeRest(f: seq<byte>, a: seq<byte>, b: seq<byte>)
    requires a != [] && NoneBefore(f, a, b)
    ensures NoneBefore(f, a[1..], b)
    ensures a + f + b == [a[0]] + (a[1..] + f + b) && !(f <= a + f + b)
  {
    var s := a + f + b;
    assert s[0..] == s && !OccursAt(f, s, 0);
    assert s[1..] == a[1..] + f + b;
    forall i: nat | i < |a[1..]| ensures !OccursAt(f, a[1..] + f + b, i) {
      assert s[1..][i..] == s[i + 1..] && !OccursAt(f, s, i + 1);
    }
  }

  lemma ReplaceSkips(x: byte, s: seq<byte>, f: seq<byte>, to: seq<byte>)
    requires f != [] && !(f <= [x] + s)
    ensures Replace([x] + s, f, to) == [x] + Replace(s, f, to)
  {
    assert ([x] + s)[1..] == s;
  }

  /** The first occurrence is replaced, what is before it stays, and the search goes on behind it. */
  lemma {:induction false} ReplaceFirst(a: seq<byte>, f: seq<byte>, b: seq<byte>, to: seq<byte>)
    requires f != [] && NoneBefore(f, a, b)
    ensures Replace(a + f + b, f, to) == a + to + Replace(b, f, to)
    decreases |a|
  {
    if a == [] {
      assert a + f + b == f + b && (f + b)[|f|..] == b && a + to == to;
    } else {
      NoneBeforeRest(f, a, b);
      ReplaceSkips(a[0], a[1..] + f + b, f, to);
      ReplaceFirst(a[1..], f, b, to);
      Assoc([a[0]], a[1..] + to, Replace(b, f, to));
      Assoc([a[0]], a[1..], to);
      assert [a[0]] + a[1..] == a;
    }
  }

  /** A path at or below the built-in prefix becomes the one at or below the new prefix. */
  lemma PrefixMoved(rest: seq<byte>, prefix: seq<byte>)
    requires Absent(OldPrefix(), rest)
    ensures Substitute(OldPrefix() + rest, InstallRule(prefix)) == prefix + rest
  {
    ReplaceAtStart(OldPrefix(), rest, prefix);
  }

  lemma ReplaceAtStart(f: seq<byte>, rest: seq<byte>, to: seq<byte>)
    requires f != [] && Absent(f, rest)
    ensures Replace(f + rest, f, to) == to + rest
  {
    ReplaceFirst([], f, rest, to);
    ReplaceAbsent(rest, f, to);
    assert [] + f + rest == f + rest && [] + to + rest == to + rest;
  }

  /** NULs behind a text bring no occurrence of the built-in prefix. */
  lemma AbsentPadded(rest: seq<byte>, n: nat)
    requires Absent(OldPrefix(), rest)
    ensures Absent(OldPrefix(), rest + Zeros(n))
  {
    OldPrefixClean();
    var s := rest + Zeros(n);
    forall i: nat | i <= |s| ensures !OccursAt(OldPrefix(), s, i) {
      if i + 23 <= |rest| {
        SamePart(OldPrefix(), rest, Zeros(n), i);
        assert !OccursAt(OldPrefix(), rest, i);
      } else if i + 23 <= |s| {
        assert s[i..][22] == s[i + 22] == 0;
        assert OldPrefix()[22] in OldPrefix();
      }
    }
  }

  lemma SamePart(f: seq<byte>, s: seq<byte>, more: seq<byte>, i: nat)
    requires i + |f| <= |s|
    ensures OccursAt(f, s + more, i) <==> OccursAt(f, s, i)
  {
    assert (s + more)[i..] == s[i..] + more;
  }

  // ---- Paths in a relocated image ----

  /** The path of the loader cache, or one of the compiler's blocks: moved, and padded with NULs. */
  lemma PathMoved(before: seq<byte>, after: seq<byte>, at: nat, size: nat, prefix: seq<byte>, rest: seq<byte>, n: nat)
    requires PathDone(before, after, at, size, InstallRule(prefix))
    requires ReadAt(before, at, size) == OldPrefix() + rest + Zeros(n)
    requires Absent(OldPrefix(), rest) && (prefix + rest == [] || (prefix + rest)[|prefix + rest| - 1] != 0)
    ensures |prefix + rest| < size
    ensures ReadAt(after, at, size) == prefix + rest + Zeros(size - |prefix + rest|)
  {
    AbsentPadded(rest, n);
    PrefixMoved(rest + Zeros(n), prefix);
    Assoc(OldPrefix(), rest, Zeros(n));
    Assoc(prefix, rest, Zeros(n));
    StripPadded(prefix + rest, n);
  }

  /** A path of those sections without the built-in prefix stays. */
  lemma PathStays(before: seq<byte>, after: seq<byte>, at: nat, size: nat, prefix: seq<byte>, text: seq<byte>, n: nat)
    requires PathDone(before, after, at, size, InstallRule(prefix))
    requires ReadAt(before, at, size) == text + Zeros(n) && |text| + n == size
    requires Absent(OldPrefix(), text) && (text == [] || text[|text| - 1] != 0)
    ensures n > 0 && ReadAt(after, at, size) == ReadAt(before, at, size)
  {
    AbsentPadded(text, n);
    ReplaceAbsent(text + Zeros(n), OldPrefix(), prefix);
    StripPadded(text, n);
  }

  /** A directory of the loader: moved in the one table, and its new length in the other. */
  lemma DirectoryMoved(m: Image, d: seq<byte>, w: nat, a: nat, b: nat, prefix: seq<byte>, i: nat, rest: seq<byte>)
    requires TablesDone(m, d, w) && w > 0 && m.rule == InstallRule(prefix) && Clean(prefix)
    requires LastOf(m, Sysdirs, |m.entries|) == Some(a) && LastOf(m, Sysdirslen, |m.entries|) == Some(b)
    requires i < |Paths(Contents(m, m.data, a))| && Absent(OldPrefix(), rest)
    ensures |Paths(Contents(m, d, a))| == |Paths(Contents(m, m.data, a))|
    ensures Paths(Contents(m, m.data, a))[i] == OldPrefix() + rest ==>
              && Paths(Contents(m, d, a))[i] == prefix + rest
              && WordIs(d, Nth(m.entries[b].sec.offset, i, w), w, |prefix| + |rest|)
    ensures Paths(Contents(m, m.data, a))[i] == rest ==>
              && Paths(Contents(m, d, a))[i] == rest
              && WordIs(d, Nth(m.entries[b].sec.offset, i, w), w, |rest|)
  {
    var before := Paths(Contents(m, m.data, a));
    var ps := NewPaths(before, m.rule);
    TablesAgree(m, d, w, a, b);
    NthWord(d, m.entries[b].sec.offset, w, ps, i);
    PrefixMoved(rest, prefix);
    ReplaceAbsent(rest, OldPrefix(), prefix);
  }

  /** The table ends at the first empty name, whatever is behind it. */
  lemma {:induction false} PathsEnd(ps: seq<seq<byte>>, rest: seq<byte>)
    requires forall p | p in ps :: Clean(p)
    ensures Paths(Strings(ps) + [0] + rest) == ps
  {
    if ps == [] {
      assert (Strings(ps) + [0] + rest)[0] == 0;
    } else {
      var strings := Strings(ps[1..]);
      Assoc(ps[0] + [0], strings, [0]);
      Assoc(ps[0] + [0], strings + [0], rest);
      FirstPath(ps[0], strings + [0] + rest);
      PathsEnd(ps[1..], rest);
      HeadFirst(ps);
    }
  }

  /** A last name without a NUL behind it counts too. */
  lemma {:induction false} PathsUnterminated(ps: seq<seq<byte>>, last: seq<byte>)
    requires Clean(last) && forall p | p in ps :: Clean(p)
    ensures Paths(Strings(ps) + last) == ps + [last]
  {
    if ps == [] {
      assert Strings(ps) + last == last;
      assert last[0..] == last;
      NoneFrom(last, 0);
    } else {
      Assoc(ps[0] + [0], Strings(ps[1..]), last);
      FirstPath(ps[0], Strings(ps[1..]) + last);
      PathsUnterminated(ps[1..], last);
      Assoc([ps[0]], ps[1..], [last]);
      HeadFirst(ps);
    }
  }

  lemma HeadFirst<T>(s: seq<T>)
    requires s != []
    ensures [s[0]] + s[1..] == s
  {
  }

  // ---- Reading and writing ----

  /** What is read are the bytes at the position, as many as there are. */
  lemma ReadMeaning(data: seq<byte>, at: nat, n: nat)
    ensures |ReadAt(data, at, n)| == if at >= |data| then 0 else if n <= |data| - at then n else |data| - at
    ensures forall j | 0 <= j < |ReadAt(data, at, n)| :: ReadAt(data, at, n)[j] == data[at + j]
  {
  }

  /** Byte by byte what a write leaves, also at and behind the end of the file. */
  lemma WriteMeaning(data: seq<byte>, at: nat, bs: seq<byte>)
    requires bs != []
    ensures var r := WriteAt(data, at, bs);
            && |r| == (if at + |bs| > |data| then at + |bs| else |data|)
            && (forall j | 0 <= j < |r| ::
                  r[j] == if at <= j < at + |bs| then bs[j - at] else if j < |data| then data[j] else 0)
            && ReadAt(r, at, |bs|) == bs
    ensures WriteAt(data, at, []) == data
  {
    var d := if at > |data| then data + Zeros(at - |data|) else data;
    assert WriteAt(data, at, bs)[at..at + |bs|] == bs;
  }

  // ---- Section names ----

  lemma NamedAt(pre: seq<byte>, name: seq<byte>, post: seq<byte>)
    requires 0 !in name
    ensures NameAt(pre + name + [0] + post, |pre|) == name
  {
    var strtab := pre + name + [0] + post;
    assert forall j | 0 <= j < |name| :: strtab[|pre| + j] == name[j];
    FindFirst(strtab, |pre|, |pre| + |name|);
  }

  /** A name that no NUL ends loses its last byte. */
  lemma NameUnterminated(pre: seq<byte>, name: seq<byte>, last: byte)
    requires 0 !in name && last != 0
    ensures NameAt(pre + name + [last], |pre|) == name
  {
    var strtab := pre + name + [last];
    assert strtab[|pre|..] == name + [last];
    NoneFrom(strtab, |pre|);
  }

  lemma NoneFrom(bs: seq<byte>, at: nat)
    requires at <= |bs| && 0 !in bs[at..]
    ensures FindNul(bs, at) == None
    decreases |bs| - at
  {
    if at < |bs| {
      assert bs[at..][0] == bs[at] && bs[at..][1..] == bs[at + 1..];
      NoneFrom(bs, at + 1);
    }
  }

  /** A section of program data has the role its name in the string table says; any other section is left alone. */
  lemma RoleByName(pre: seq<byte>, name: seq<byte>, post: seq<byte>, offset: nat, size: nat)
    requires 0 !in name
    ensures var role := RoleOf(pre + name + [0] + post, Section(|pre|, 1, offset, size));
            && (name == Ascii(".sysdirs") ==> role == Sysdirs)
            && (name == Ascii(".sysdirslen") ==> role == Sysdirslen)
            && (name == Ascii(".ldsocache") ==> role == Ldsocache)
            && (name == Ascii(".gccrelocprefix") ==> role == Gccrelocprefix)
            && (role.Untouched? <==> name !in [Ascii(".sysdirs"), Ascii(".sysdirslen"), Ascii(".ldsocache"),
                                               Ascii(".gccrelocprefix")])
  {
    NamedAt(pre, name, post);
  }

  lemma OnlyProgramData(strtab: seq<byte>, sec: Section)
    requires sec.kind != 1
    ensures RoleOf(strtab, sec) == Untouched
  {
  }

  // ---- The interpreter ----

  /** Where the interpreter of a pre-compiled binary is. */
  function SystemDirectories(): seq<string> {
    ["/lib/", "/lib64/", "/lib32/", "/usr/lib32/", "/usr/lib64/"]
  }

  ghost predicate InSystemDirectory(data: seq<byte>, at: nat)
    requires at <= |data|
  {
    exists k | 0 <= k < 5 :: Ascii(SystemDirectories()[k]) <= data[at..]
  }

  /** The eleven bytes that are read are enough to tell a system interpreter. */
  lemma SystemInterpreterMeaning(data: seq<byte>, at: nat)
    requires at <= |data|
    ensures SystemInterpreter(ReadAt(data, at, 11)) <==> InSystemDirectory(data, at)
  {
    var dirs := SystemDirectories();
    forall k | 0 <= k < 5
      ensures Ascii(dirs[k]) <= ReadAt(data, at, 11) <==> Ascii(dirs[k]) <= data[at..]
    {
      assert |dirs[k]| <= 11;
      PrefixOfRead(data, at, 11, Ascii(dirs[k]));
    }
    assert SystemInterpreter(ReadAt(data, at, 11)) <==>
           exists k | 0 <= k < 5 :: Ascii(dirs[k]) <= ReadAt(data, at, 11) by {
      assert dirs[0] == "/lib/" && dirs[1] == "/lib64/" && dirs[2] == "/lib32/" && dirs[3] == "/usr/lib32/";
      assert dirs[4] == "/usr/lib64/";
    }
  }

  lemma PrefixOfRead(data: seq<byte>, at: nat, n: nat, p: seq<byte>)
    requires at <= |data| && |p| <= n
    ensures p <= ReadAt(data, at, n) <==> p <= data[at..]
  {
    assert ReadAt(data, at, n) <= data[at..];
  }

  /** Segment `i` is the first of type 3, and it is that big and there. */
  predicate InterpAt(data: seq<byte>, h: Header, i: nat, at: nat, size: nat) {
    && i < h.phnum && SegmentAt(data, h, i) == Some((3, at, size))
    && forall k: nat | k < i :: SegmentAt(data, h, k).Some? && SegmentAt(data, h, k).value.0 != 3
  }

  lemma Skipped(data: seq<byte>, h: Header, dl_path: seq<byte>, i: nat)
    requires i < h.phnum
    requires forall j: nat | j < i :: SegmentAt(data, h, j).Some? && SegmentAt(data, h, j).value.0 != 3
    ensures ChangeInterpreter(data, h, dl_path, 0) == ChangeInterpreter(data, h, dl_path, i)
  {
    var from := (j: nat) => ChangeInterpreter(data, h, dl_path, j);
    forall j: nat | j < i ensures from(j) == from(j + 1) {
      SkipOne(data, h, dl_path, j);
    }
    AllAlike(from, i);
  }

  lemma {:induction false} AllAlike(f: nat -> InterpResult, i: nat)
    requires forall j: nat | j < i :: f(j) == f(j + 1)
    ensures f(0) == f(i)
  {
    if i > 0 {
      AllAlike(f, i - 1);
    }
  }

  lemma SkipOne(data: seq<byte>, h: Header, dl_path: seq<byte>, k: nat)
    requires k < h.phnum && SegmentAt(data, h, k).Some? && SegmentAt(data, h, k).value.0 != 3
    ensures ChangeInterpreter(data, h, dl_path, k) == ChangeInterpreter(data, h, dl_path, k + 1)
  {
  }

  lemma SegmentMeaning(data: seq<byte>, dl_path: seq<byte>, at: nat, size: nat)
    requires at + size <= |data|
    ensures var r, system := ChangeSegment(data, at, size, dl_path), InSystemDirectory(data, at);
            && r.Interp? && (r.ok <==> system || size == 0 || |dl_path| < size)
            && (system || size == 0 || |dl_path| >= size ==> r.data == data)
            && (!system && |dl_path| < size ==>
                  r.data == data[..at] + dl_path + Zeros(size - |dl_path|) + data[at + size..])
  {
    SystemInterpreterMeaning(data, at);
    if |dl_path| < size {
      WholeWrite(data, at, dl_path, size - |dl_path|);
    }
  }

  /**
   The first segment of type 3 decides: a system interpreter or an empty segment stays, a path that leaves no room
   for a NUL is complained about, and any other is written over the whole segment.
   */
  lemma InterpreterMeaning(data: seq<byte>, h: Header, dl_path: seq<byte>, i: nat, at: nat, size: nat)
    requires InterpAt(data, h, i, at, size) && at + size <= |data|
    ensures var r, system := ChangeInterpreter(data, h, dl_path, 0), InSystemDirectory(data, at);
            && r.Interp? && (r.ok <==> system || size == 0 || |dl_path| < size)
            && (system || size == 0 || |dl_path| >= size ==> r.data == data)
            && (!system && |dl_path| < size ==>
                  r.data == data[..at] + dl_path + Zeros(size - |dl_path|) + data[at + size..])
  {
    Skipped(data, h, dl_path, i);
    FirstOfType3(data, h, dl_path, i, at, size);
    SegmentMeaning(data, dl_path, at, size);
  }

  lemma FirstOfType3(data: seq<byte>, h: Header, dl_path: seq<byte>, i: nat, at: nat, size: nat)
    requires i < h.phnum && SegmentAt(data, h, i) == Some((3, at, size))
    ensures ChangeInterpreter(data, h, dl_path, i) == ChangeSegment(data, at, size, dl_path)
  {
  }

  lemma WholeWrite(data: seq<byte>, at: nat, text: seq<byte>, n: nat)
    requires at + |text| + n <= |data| && n > 0
    ensures WriteAt(data, at, text + Zeros(n)) == data[..at] + text + Zeros(n) + data[at + |text| + n..]
  {
    InPlace(data, at, text + Zeros(n));
    Assoc(data[..at], text, Zeros(n));
  }

  lemma InPlace(data: seq<byte>, at: nat, bs: seq<byte>)
    requires bs != [] && at + |bs| <= |data|
    ensures WriteAt(data, at, bs) == data[..at] + bs + data[at + |bs|..]
  {
  }

  /** Without a segment of type 3 nothing is changed. */
  lemma NoInterpreter(data: seq<byte>, h: Header, dl_path: seq<byte>)
    requires forall k: nat | k < h.phnum :: SegmentAt(data, h, k).Some? && SegmentAt(data, h, k).value.0 != 3
    ensures ChangeInterpreter(data, h, dl_path, 0) == Interp(data, true)
  {
    if h.phnum > 0 {
      Skipped(data, h, dl_path, h.phnum - 1);
      assert SegmentAt(data, h, h.phnum - 1).Some?;
    }
  }

  /** What is too short, is no ELF image or has another class is left alone; the length counts first. */
  lemma LeftAlone(data: seq<byte>, prefix: seq<byte>, dl_path: seq<byte>)
    requires |data| < 64 || data[0] != 0x7f || (data[4] != 1 && data[4] != 2)
    ensures RelocateImage(data, prefix, dl_path) == (Ok(data), true)
  {
  }
}
