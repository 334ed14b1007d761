/**
 Cleaning the shared-state cache: duplicates, files no stamp refers to, and files whose archive
 is missing are collected in passes that do not know of each other, and deleted at the end.
 */
module Sstate {
  import opened Wrappers
  import opened Sequences
  import Text

  /** A file of the cache, with the parts of its name the passes look at; they are found between colons. */
  datatype Entry = Entry(path: string, pn: string, arch: string, task: string, ext: string, unihash: string, mtime: int)

  predicate WellNamed(e: Entry) {
    ':' !in e.pn && ':' !in e.arch && ':' !in e.task && ':' !in e.ext
  }

  const ARCHIVE := ".tar.zst"
  const LICENSES := "populate_lic"

  function FileParts(e: Entry): (parts: seq<string>) {
    [e.pn, e.arch, e.task, e.ext]
  }

  function GroupParts(e: Entry): (parts: seq<string>) {
    [e.pn, e.arch, e.task]
  }

  function FileSig(e: Entry): string {
    Text.Join(FileParts(e), ':')
  }

  function GroupSig(e: Entry): string {
    Text.Join(GroupParts(e), ':')
  }

  predicate SameGroup(a: Entry, b: Entry) {
    a.pn == b.pn && a.arch == b.arch && a.task == b.task
  }

  predicate SameKind(a: Entry, b: Entry) {
    SameGroup(a, b) && a.ext == b.ext
  }

  lemma JoinInjective(a: seq<string>, b: seq<string>)
    requires a != [] && b != [] && (forall i | 0 <= i < |a| :: ':' !in a[i]) &&
             (forall i | 0 <= i < |b| :: ':' !in b[i])
    ensures Text.Join(a, ':') == Text.Join(b, ':') <==> a == b
  {
    Text.SplitJoin(a, ':');
    Text.SplitJoin(b, ':');
  }

  /** Joined names tell apart what their parts tell apart. */
  lemma SigsMeanGroups(a: Entry, b: Entry)
    requires WellNamed(a) && WellNamed(b)
    ensures GroupSig(a) == GroupSig(b) <==> a.pn == b.pn && a.arch == b.arch && a.task == b.task
    ensures FileSig(a) == FileSig(b) <==> a.pn == b.pn && a.arch == b.arch && a.task == b.task && a.ext == b.ext
  {
    JoinInjective(GroupParts(a), GroupParts(b));
    JoinInjective(FileParts(a), FileParts(b));
    assert GroupParts(a)[0] == a.pn && GroupParts(a)[1] == a.arch && GroupParts(a)[2] == a.task;
    assert GroupParts(b)[0] == b.pn && GroupParts(b)[1] == b.arch && GroupParts(b)[2] == b.task;
    assert FileParts(a)[0] == a.pn && FileParts(a)[1] == a.arch && FileParts(a)[2] == a.task &&
        FileParts(a)[3] == a.ext;
    assert FileParts(b)[0] == b.pn && FileParts(b)[1] == b.arch && FileParts(b)[2] == b.task &&
        FileParts(b)[3] == b.ext;
  }

  function Elements(ps: seq<Entry>): set<Entry> {
    set p | p in ps
  }

  lemma NoDupAppend(ps: seq<Entry>, p: Entry)
    requires NoDup(ps) && p !in ps
    ensures NoDup(ps + [p]) && Elements(ps + [p]) == Elements(ps) + {p}
  {
  }

  // ---- Duplicates ----

  /** The files the duplicate pass looks at. */
  function Candidates(ps: seq<Entry>): (r: seq<Entry>)
    ensures forall p :: p in r <==> p in ps && p.task != LICENSES
  {
    if ps == [] then [] else (if ps[0].task != LICENSES then [ps[0]] else []) + Candidates(ps[1..])
  }

  lemma {:induction false} CandidatesNoDup(ps: seq<Entry>)
    requires NoDup(ps)
    ensures NoDup(Candidates(ps))
  {
    if ps != [] {
      assert forall i, j | 0 <= i < j < |ps[1..]| :: ps[1..][i] == ps[i + 1] && ps[1..][j] == ps[j + 1];
      CandidatesNoDup(ps[1..]);
      assert ps[0] !in ps[1..];
    }
  }

  /** One file is kept for each name, the newest one seen; the others are removed. */
  ghost predicate Kept(sig: Entry -> string, seen: set<Entry>, keep: map<string, Entry>, removed: set<Entry>) {
    && removed !! keep.Values && removed + keep.Values == seen
    && (forall s | s in keep :: sig(keep[s]) == s)
    && (forall p | p in seen :: sig(p) in keep && p.mtime <= keep[sig(p)].mtime)
  }

  lemma KeptFirst(sig: Entry -> string, seen: set<Entry>, keep: map<string, Entry>, removed: set<Entry>, p: Entry)
    requires Kept(sig, seen, keep, removed) && p !in seen && sig(p) !in keep
    ensures Kept(sig, seen + {p}, keep[sig(p) := p], removed)
  {
    var next := keep[sig(p) := p];
    assert forall s | s in keep :: next[s] == keep[s];
    assert next[sig(p)] == p;
    assert next.Values == keep.Values + {p};
  }

  lemma KeptNewer(sig: Entry -> string, seen: set<Entry>, keep: map<string, Entry>, removed: set<Entry>, p: Entry)
    requires Kept(sig, seen, keep, removed) && p !in seen && sig(p) in keep && p.mtime > keep[sig(p)].mtime
    ensures keep[sig(p)] !in removed
    ensures Kept(sig, seen + {p}, keep[sig(p) := p], removed + {keep[sig(p)]})
  {
    var next := keep[sig(p) := p];
    var q := keep[sig(p)];
    assert q in keep.Values;
    assert forall s | s in keep && s != sig(p) :: next[s] == keep[s];
    assert next[sig(p)] == p;
    assert next.Values == keep.Values - {q} + {p} by {
      forall e | e in keep.Values && e != q ensures e in next.Values {
        var s :| s in keep && keep[s] == e;
        assert next[s] == e;
      }
      assert forall s | s in keep && s != sig(p) :: sig(keep[s]) == s && keep[s] != q;
    }
  }

  lemma KeptOlder(sig: Entry -> string, seen: set<Entry>, keep: map<string, Entry>, removed: set<Entry>, p: Entry)
    requires Kept(sig, seen, keep, removed) && p !in seen && sig(p) in keep && p.mtime <= keep[sig(p)].mtime
    ensures p !in removed && Kept(sig, seen + {p}, keep, removed + {p})
  {
  }

  /** What the pass removes: all but one of the newest files of each kind. */
  ghost predicate KeepsNewest(files: set<Entry>, removed: set<Entry>) {
    && (forall p | p in removed :: p in files && p.task != LICENSES)
    && (forall p, q | p in files - removed && q in files - removed && p.task != LICENSES && q.task != LICENSES ::
          SameKind(p, q) ==> p == q)
    && (forall p | p in files && p.task != LICENSES :: NewestLeft(files, removed, p))
  }

  /** A file of the kind of `p` is left that is at least as new. */
  ghost predicate NewestLeft(files: set<Entry>, removed: set<Entry>, p: Entry) {
    exists q | q in files - removed :: SameKind(p, q) && q.task != LICENSES && p.mtime <= q.mtime
  }

  method RemoveDuplicated(paths: seq<Entry>) returns (remove: seq<Entry>)
    requires NoDup(paths) && forall p | p in paths :: WellNamed(p)
    ensures NoDup(remove) && KeepsNewest(Elements(paths), Elements(remove))
  {
    var valid_paths := Candidates(paths);
    CandidatesNoDup(paths);
    var keep: map<string, Entry>;
    keep, remove := KeepNewest(valid_paths);
    NewestKept(Elements(paths), valid_paths, keep, Elements(remove));
  }

  /** The loop of the pass. */
  method KeepNewest(valid_paths: seq<Entry>) returns (keep: map<string, Entry>, remove: seq<Entry>)
    requires NoDup(valid_paths)
    ensures NoDup(remove) && Kept(FileSig, Elements(valid_paths), keep, Elements(remove))
  {
    keep, remove := map[], [];
    ghost var sig_of := FileSig;
    for n := 0 to |valid_paths|
      invariant NoDup(remove) && Kept(sig_of, Elements(valid_paths[..n]), keep, Elements(remove))
    {
      var p := valid_paths[n];
      var sig := FileSig(p);
      ghost var seen := Elements(valid_paths[..n]);
      assert Elements(valid_paths[..n + 1]) == seen + {p} && p !in seen;
      if sig !in keep {
        KeptFirst(sig_of, seen, keep, Elements(remove), p);
        keep := keep[sig := p];
      } else if p.mtime > keep[sig].mtime {
        KeptNewer(sig_of, seen, keep, Elements(remove), p);
        NoDupAppend(remove, keep[sig]);
        remove := remove + [keep[sig]];
        keep := keep[sig := p];
      } else {
        KeptOlder(sig_of, seen, keep, Elements(remove), p);
        NoDupAppend(remove, p);
        remove := remove + [p];
      }
    }
    assert valid_paths[..|valid_paths|] == valid_paths;
  }

  lemma NewestKept(files: set<Entry>, vs: seq<Entry>, keep: map<string, Entry>, removed: set<Entry>)
    requires forall p | p in files :: WellNamed(p)
    requires forall p :: p in vs <==> p in files && p.task != LICENSES
    requires Kept(FileSig, Elements(vs), keep, removed)
    ensures KeepsNewest(files, removed)
  {
    forall p, q | p in files - removed && q in files - removed && p.task != LICENSES && SameKind(p, q)
      ensures p == q
    {
      SigsMeanGroups(p, q);
      assert p in Elements(vs) && q in Elements(vs);
      assert p in keep.Values && q in keep.Values;
    }
    forall p | p in files && p.task != LICENSES ensures NewestLeft(files, removed, p) {
      assert p in Elements(vs);
      var q := keep[FileSig(p)];
      assert q in keep.Values;
      SigsMeanGroups(p, q);
    }
  }

  /** License files have no duplicates, and of other files one task is not like another. */
  lemma LicensesExempt(files: set<Entry>, removed: set<Entry>, p: Entry, q: Entry)
    requires KeepsNewest(files, removed) && p in files && q in files && p != q
    requires p.pn == q.pn && p.arch == q.arch && p.ext == q.ext && p.task == q.task
    ensures p.task == "populate_lic" ==> p !in removed && q !in removed
    ensures p.task != "populate_lic" ==> p in removed || q in removed
    ensures p.task != "populate_lic" && p in removed ==>
              exists k | k in files && k !in removed :: SameKind(p, k) && p.mtime <= k.mtime
  {
    if p.task != "populate_lic" {
      assert SameKind(p, q);
      assert NewestLeft(files, removed, p);
    }
  }

  // ---- Orphans ----

  /** The files of groups without an archive. */
  function Orphans(files: set<Entry>): set<Entry> {
    set p | p in files && !HasArchive(files, p)
  }

  predicate HasArchive(files: set<Entry>, p: Entry) {
    exists q | q in files :: SameGroup(p, q) && q.ext == ARCHIVE
  }

  /** The lists of the files seen, by name of their group; `keys` in the order the names came up. */
  ghost predicate Grouped(sig: Entry -> string, seen: set<Entry>, groups: map<string, seq<Entry>>, keys: seq<string>) {
    && (forall k :: k in keys <==> k in groups)
    && (forall k, p | k in groups :: p in groups[k] <==> p in seen && sig(p) == k)
    && (forall p | p in seen :: sig(p) in groups)
  }

  lemma GroupedStep(sig: Entry -> string, seen: set<Entry>, groups: map<string, seq<Entry>>, keys: seq<string>,
                    p: Entry)
    requires Grouped(sig, seen, groups, keys)
    ensures sig(p) in groups ==> Grouped(sig, seen + {p}, groups[sig(p) := groups[sig(p)] + [p]], keys)
    ensures sig(p) !in groups ==> Grouped(sig, seen + {p}, groups[sig(p) := [p]], keys + [sig(p)])
  {
  }

  predicate AnyArchive(v: seq<Entry>) {
    exists p | p in v :: p.ext == ARCHIVE
  }

  /** The groups without an archive among some keys. */
  ghost predicate Extended(sig: Entry -> string, seen: set<Entry>, groups: map<string, seq<Entry>>, keys: seq<string>,
                           remove: seq<Entry>) {
    forall p :: p in remove <==> p in seen && sig(p) in keys && sig(p) in groups && !AnyArchive(groups[sig(p)])
  }

  lemma ExtendedStep(sig: Entry -> string, seen: set<Entry>, groups: map<string, seq<Entry>>, keys: seq<string>,
                     all: seq<string>, k: string, remove: seq<Entry>)
    requires Grouped(sig, seen, groups, all) && Extended(sig, seen, groups, keys, remove) && k in groups
    ensures Extended(sig, seen, groups, keys + [k], if AnyArchive(groups[k]) then remove else remove + groups[k])
  {
  }

  method RemoveOrphans(paths: seq<Entry>) returns (remove: seq<Entry>)
    requires forall p | p in paths :: WellNamed(p)
    ensures Elements(remove) == Orphans(Elements(paths))
  {
    ghost var sig_of := GroupSig;
    var pathsigs: map<string, seq<Entry>>, keys: seq<string> := map[], [];
    for n := 0 to |paths|
      invariant Grouped(sig_of, Elements(paths[..n]), pathsigs, keys)
    {
      var p := paths[n];
      var sig := GroupSig(p);
      GroupedStep(sig_of, Elements(paths[..n]), pathsigs, keys, p);
      assert Elements(paths[..n + 1]) == Elements(paths[..n]) + {p};
      if sig !in pathsigs {
        keys, pathsigs := keys + [sig], pathsigs[sig := [p]];
      } else {
        pathsigs := pathsigs[sig := pathsigs[sig] + [p]];
      }
    }
    assert paths[..|paths|] == paths;
    remove := [];
    for n := 0 to |keys|
      invariant Extended(sig_of, Elements(paths), pathsigs, keys[..n], remove)
    {
      ExtendedStep(sig_of, Elements(paths), pathsigs, keys[..n], keys, keys[n], remove);
      assert keys[..n + 1] == keys[..n] + [keys[n]];
      if !AnyArchive(pathsigs[keys[n]]) {
        remove := remove + pathsigs[keys[n]];
      }
    }
    assert keys[..|keys|] == keys;
    OrphansFound(Elements(paths), pathsigs, keys, remove);
  }

  lemma OrphansFound(files: set<Entry>, groups: map<string, seq<Entry>>, keys: seq<string>, remove: seq<Entry>)
    requires forall p | p in files :: WellNamed(p)
    requires Grouped(GroupSig, files, groups, keys) && Extended(GroupSig, files, groups, keys, remove)
    ensures Elements(remove) == Orphans(files)
  {
    forall p | p in files ensures AnyArchive(groups[GroupSig(p)]) <==> HasArchive(files, p) {
      forall q | q in files ensures q in groups[GroupSig(p)] <==> SameGroup(p, q) {
        SigsMeanGroups(p, q);
      }
    }
  }

  // ---- Stamps ----

  /** The files no stamp refers to. */
  function Unstamped(files: set<Entry>, sums: set<string>): set<Entry> {
    set p | p in files && p.unihash !in sums
  }

  method RemoveByStamps(paths: seq<Entry>, sums: set<string>) returns (remove: seq<Entry>)
    requires NoDup(paths)
    ensures NoDup(remove) && Elements(remove) == Unstamped(Elements(paths), sums)
  {
    remove := [];
    for n := 0 to |paths|
      invariant NoDup(remove) && Elements(remove) == Unstamped(Elements(paths[..n]), sums)
    {
      assert paths[n] !in paths[..n] && paths[..n + 1] == paths[..n] + [paths[n]];
      if paths[n].unihash !in sums {
        assert paths[n] !in Elements(remove);
        NoDupAppend(remove, paths[n]);
        remove := remove + [paths[n]];
      }
    }
    assert paths[..|paths|] == paths;
  }

  // ---- The command ----

  /** The options: duplicates come before stamps when both are given. */
  datatype Args = Args(duplicated: bool, stamps: Option<set<string>>, orphans: bool)

  /** What the first pass may collect. */
  ghost predicate FirstPass(args: Args, files: set<Entry>, first: set<Entry>) {
    if args.duplicated then KeepsNewest(files, first)
    else if args.stamps.Some? then first == Unstamped(files, args.stamps.value)
    else first == {}
  }

  /** All that may be collected under the options. */
  ghost predicate Collected(args: Args, files: set<Entry>, removed: set<Entry>) {
    if args.orphans then exists first | FirstPass(args, files, first) :: removed == first + Orphans(files)
    else FirstPass(args, files, removed)
  }

  class CacheDir {
    var files: set<Entry>

    constructor (files: set<Entry>)
      ensures this.files == files
    {
      this.files := files;
    }

    /** Deleting a file; an error if there is none. */
    method Unlink(p: Entry) returns (ok: bool)
      modifies this
      ensures ok <==> p in old(files)
      ensures files == old(files) - {p}
    {
      ok := p in files;
      files := files - {p};
    }

    /** The command on the files found: no deletion fails, and what is left is what was not collected. */
    method Clean(args: Args, paths: seq<Entry>, confirm: bool) returns (ok: bool, removed: set<Entry>)
      requires NoDup(paths) && Elements(paths) == files && forall p | p in paths :: WellNamed(p)
      modifies this
      ensures Collected(args, old(files), removed)
      ensures ok && files == if confirm then old(files) - removed else old(files)
    {
      var remove: seq<Entry> := [];
      if args.duplicated {
        remove := RemoveDuplicated(paths);
      } else if args.stamps.Some? {
        remove := RemoveByStamps(paths, args.stamps.value);
      }
      removed := Elements(remove);
      assert FirstPass(args, files, removed);
      ok := true;
      if args.orphans {
        var more := RemoveOrphans(paths);
        removed := removed + Elements(more);
        if confirm {
          ok := UnlinkSet(removed);
        }
      } else if confirm {
        ok := UnlinkAll(remove);
      }
    }

    method UnlinkAll(remove: seq<Entry>) returns (ok: bool)
      modifies this
      ensures NoDup(remove) && Elements(remove) <= old(files) ==> ok
      ensures ok ==> files == old(files) - Elements(remove)
    {
      for n := 0 to |remove|
        invariant files == old(files) - Elements(remove[..n])
      {
        ghost var before := remove[..n];
        assert remove[..n + 1] == before + [remove[n]];
        assert NoDup(remove) ==> remove[n] !in before;
        ok := Unlink(remove[n]);
        if !ok {
          return;
        }
      }
      assert remove[..|remove|] == remove;
      ok := true;
    }

    method UnlinkSet(remove: set<Entry>) returns (ok: bool)
      modifies this
      ensures remove <= old(files) ==> ok
      ensures ok ==> files == old(files) - remove
    {
      var todo := remove;
      while todo != {}
        invariant todo <= remove && files == old(files) - (remove - todo)
      {
        var p :| p in todo;
        ok := Unlink(p);
        if !ok {
          return;
        }
        todo := todo - {p};
      }
      ok := true;
    }
  }

  // ---- What is left ----

  ghost predicate ArchiveInEveryGroup(files: set<Entry>) {
    forall p | p in files :: HasArchive(files, p)
  }

  ghost predicate NoDuplicates(files: set<Entry>) {
    forall p, q | p in files && q in files && p.task != LICENSES && SameKind(p, q) :: p == q
  }

  /** No group loses its last archive to the duplicate pass, and no archive is an orphan. */
  lemma ArchiveStays(files: set<Entry>, first: set<Entry>, p: Entry)
    requires KeepsNewest(files, first) && p in files
    ensures HasArchive(files, p) <==> HasArchive(files - first, p)
  {
    if HasArchive(files, p) {
      var a :| a in files && SameGroup(p, a) && a.ext == ARCHIVE;
      if a.task != LICENSES {
        assert NewestLeft(files, first, a);
        var q :| q in files - first && SameKind(a, q);
        assert SameGroup(p, q) && q.ext == ARCHIVE;
      } else {
        assert a in files - first;
      }
    }
  }

  lemma ArchiveIsNoOrphan(files: set<Entry>, first: set<Entry>, p: Entry)
    ensures HasArchive(files - (first + Orphans(files)), p) <==> HasArchive(files - first, p)
  {
    if HasArchive(files - first, p) {
      var a :| a in files - first && SameGroup(p, a) && a.ext == ARCHIVE;
      assert HasArchive(files, a);
      assert a in files - (first + Orphans(files));
    }
  }

  /**
   Both passes together: every group with files left has an archive, every kind of file in such a
   group has exactly its newest file left, license groups with an archive are untouched, and groups
   without an archive are gone.
   */
  lemma CleanupLeaves(files: set<Entry>, removed: set<Entry>, stamps: Option<set<string>>)
    requires Collected(Args(true, stamps, true), files, removed)
    ensures ArchiveInEveryGroup(files - removed) && NoDuplicates(files - removed)
    ensures forall p | p in files :: HasArchive(files, p) <==> GroupLeft(files - removed, p)
    ensures forall p | p in files && HasArchive(files, p) :: if p.task == LICENSES then p in files - removed
            else NewestLeft(files, removed, p)
  {
    var first :| FirstPass(Args(true, stamps, true), files, first) && removed == first + Orphans(files);
    UniqueLeft(files, first, removed);
    forall p | p in files
      ensures HasArchive(files, p) ==> if p.task == LICENSES then p in files - removed
              else NewestLeft(files, removed, p)
      ensures HasArchive(files, p) <==> GroupLeft(files - removed, p)
      ensures p in files - removed ==> HasArchive(files - removed, p)
    {
      FileLeft(files, first, p);
    }
  }

  lemma UniqueLeft(files: set<Entry>, first: set<Entry>, removed: set<Entry>)
    requires KeepsNewest(files, first) && first <= removed
    ensures NoDuplicates(files - removed)
  {
  }

  lemma FileLeft(files: set<Entry>, first: set<Entry>, p: Entry)
    requires KeepsNewest(files, first) && p in files
    ensures var left := files - (first + Orphans(files));
            && (HasArchive(files, p) <==> HasArchive(left, p)) && (HasArchive(files, p) <==> GroupLeft(left, p))
            && (p in left ==> HasArchive(left, p))
            && (HasArchive(files, p) ==> if p.task == LICENSES then p in left
               else NewestLeft(files, first + Orphans(files), p))
  {
    ArchiveStays(files, first, p);
    ArchiveIsNoOrphan(files, first, p);
    GroupsLeft(files, first, p);
    if HasArchive(files, p) && p.task != LICENSES {
      KindLeft(files, first, p);
    }
  }

  predicate GroupLeft(left: set<Entry>, p: Entry) {
    exists q | q in left :: SameGroup(p, q)
  }

  lemma GroupsLeft(files: set<Entry>, first: set<Entry>, p: Entry)
    requires HasArchive(files, p) <==> HasArchive(files - (first + Orphans(files)), p)
    ensures HasArchive(files, p) <==> GroupLeft(files - (first + Orphans(files)), p)
  {
    if q :| q in files - (first + Orphans(files)) && SameGroup(p, q) {
      assert HasArchive(files, q);
      var a :| a in files && SameGroup(q, a) && a.ext == ARCHIVE;
      assert SameGroup(p, a);
    }
  }

  lemma KindLeft(files: set<Entry>, first: set<Entry>, p: Entry)
    requires KeepsNewest(files, first) && p in files && HasArchive(files, p) && p.task != LICENSES
    ensures NewestLeft(files, first + Orphans(files), p)
  {
    assert NewestLeft(files, first, p);
    var q :| q in files - first && SameKind(p, q) && p.mtime <= q.mtime;
    var a :| a in files && SameGroup(p, a) && a.ext == ARCHIVE;
    assert SameGroup(q, a);
    assert q in files - (first + Orphans(files));
  }

  /** Where there are no duplicates and no orphans, a run removes nothing. */
  lemma NothingToDo(files: set<Entry>, removed: set<Entry>, args: Args)
    requires Collected(args, files, removed) && (args.duplicated || args.stamps.None?)
    requires (args.duplicated ==> NoDuplicates(files)) && (args.orphans ==> ArchiveInEveryGroup(files))
    ensures removed == {}
  {
    forall first, p | FirstPass(args, files, first) && p in files ensures p !in first {
      if args.duplicated && p.task != LICENSES {
        SingleStays(files, first, p);
      }
    }
    forall first | FirstPass(args, files, first) ensures first == {} {
      assert first <= files;
    }
  }

  lemma SingleStays(files: set<Entry>, first: set<Entry>, p: Entry)
    requires KeepsNewest(files, first) && NoDuplicates(files) && p in files && p.task != LICENSES
    ensures p !in first
  {
    assert NewestLeft(files, first, p);
    var q :| q in files - first && SameKind(p, q);
    assert p == q;
  }

  /** Removing orphans alone: groups with an archive stay whole, the others go whole. */
  lemma OrphansOnly(files: set<Entry>, removed: set<Entry>)
    requires Collected(Args(false, None, true), files, removed)
    ensures ArchiveInEveryGroup(files - removed)
    ensures forall p | p in files :: p in files - removed <==> HasArchive(files - removed, p)
    ensures forall p, q | p in removed && q in files && SameGroup(p, q) :: q in removed && q.ext != ARCHIVE
  {
    forall p | p in files ensures HasArchive(files - removed, p) <==> HasArchive(files, p) {
      ArchiveIsNoOrphan(files, {}, p);
      assert files - {} == files;
    }
  }

  /** Removing duplicates alone leaves an archive in every group exactly if every group had one. */
  lemma DuplicatesOnly(files: set<Entry>, removed: set<Entry>, stamps: Option<set<string>>)
    requires Collected(Args(true, stamps, false), files, removed)
    ensures NoDuplicates(files - removed)
    ensures ArchiveInEveryGroup(files - removed) <==> ArchiveInEveryGroup(files)
  {
    UniqueLeft(files, removed, removed);
    forall p | p in files
      ensures HasArchive(files, p) <==> HasArchive(files - removed, p)
      ensures ArchiveInEveryGroup(files - removed) ==> HasArchive(files, p)
    {
      ArchiveStays(files, removed, p);
      KindHasArchive(files, removed, p);
    }
  }

  lemma KindHasArchive(files: set<Entry>, removed: set<Entry>, p: Entry)
    requires KeepsNewest(files, removed) && p in files
    ensures ArchiveInEveryGroup(files - removed) ==> HasArchive(files, p)
  {
    if ArchiveInEveryGroup(files - removed) {
      if p.task != LICENSES {
        assert NewestLeft(files, removed, p);
        var q :| q in files - removed && SameKind(p, q);
        assert HasArchive(files - removed, q);
      } else {
        assert p in files - removed;
      }
    }
  }

  /** Each group that has an archive and a file with a stamp has an archive with a stamp. */
  ghost predicate StampedArchives(files: set<Entry>, sums: set<string>) {
    forall p | p in files && p.unihash in sums && HasArchive(files, p) :: HasArchive(files - Unstamped(files, sums), p)
  }

  /**
   Removing by stamps and orphans: the orphans are those of the files found, so a group may lose its
   archive and keep another file.  None does exactly if the stamped groups have stamped archives.
   */
  lemma StampsAndOrphans(files: set<Entry>, sums: set<string>, removed: set<Entry>)
    requires Collected(Args(false, Some(sums), true), files, removed)
    ensures ArchiveInEveryGroup(files - removed) <==> StampedArchives(files, sums)
  {
    var first := Unstamped(files, sums);
    assert removed == first + Orphans(files);
    forall p ensures HasArchive(files - removed, p) <==> HasArchive(files - first, p) {
      ArchiveIsNoOrphan(files, first, p);
    }
    assert forall p :: p in files - removed <==> p in files && p.unihash in sums && HasArchive(files, p);
  }

  lemma NoOrphans(files: set<Entry>)
    ensures Orphans(files) == {} <==> ArchiveInEveryGroup(files)
  {
    assert forall p :: p in Orphans(files) <==> p in files && !HasArchive(files, p);
  }

  /** Stamped files stay stamped: a second run by stamps collects the orphans left, and nothing else. */
  lemma StampsAgain(left: set<Entry>, sums: set<string>, orphans: bool, again: set<Entry>)
    requires Collected(Args(false, Some(sums), orphans), left, again) && forall p | p in left :: p.unihash in sums
    ensures again == if orphans then Orphans(left) else {}
  {
    assert Unstamped(left, sums) == {};
  }

  /**
   A second run with the same options finds nothing to remove, whatever the order in which it looks at
   the files, exactly if the first did not collect by stamps and orphans where a stamped group has no
   stamped archive.
   */
  lemma CleanupTwice(files: set<Entry>, removed: set<Entry>, again: set<Entry>, args: Args)
    requires Collected(args, files, removed) && Collected(args, files - removed, again)
    ensures again == {} <==>
            (!args.duplicated && args.stamps.Some? && args.orphans ==> StampedArchives(files, args.stamps.value))
  {
    var left := files - removed;
    if args.duplicated && args.orphans {
      CleanupLeaves(files, removed, args.stamps);
      NothingToDo(left, again, args);
    } else if args.duplicated {
      DuplicatesOnly(files, removed, args.stamps);
      NothingToDo(left, again, args);
    } else if args.stamps.None? {
      if args.orphans {
        OrphansOnly(files, removed);
      }
      NothingToDo(left, again, args);
    } else {
      StampsAgain(left, args.stamps.value, args.orphans, again);
      if args.orphans {
        StampsAndOrphans(files, args.stamps.value, removed);
        NoOrphans(left);
      }
    }
  }

  /** An archive without a stamp goes, its other file has one and stays behind until a second run. */
  lemma StampsLeaveAnOrphan()
    ensures var archive := Entry("a", "zlib", "x86_64", "package", ".tar.zst", "0", 0);
            var info := Entry("b", "zlib", "x86_64", "package", ".tar.zst.siginfo", "1", 0);
            && Collected(Args(false, Some({"1"}), true), {archive, info}, {archive})
            && !ArchiveInEveryGroup({archive, info} - {archive})
            && Collected(Args(false, Some({"1"}), true), {archive, info} - {archive}, {info})
  {
    var archive := Entry("a", "zlib", "x86_64", "package", ARCHIVE, "0", 0);
    var info := Entry("b", "zlib", "x86_64", "package", ".tar.zst.siginfo", "1", 0);
    var files := {archive, info};
    assert archive.unihash != info.unihash;
    assert SameGroup(info, archive) && SameGroup(archive, archive);
    assert Orphans(files) == {};
    assert Unstamped(files, {"1"}) == {archive};
    assert FirstPass(Args(false, Some({"1"}), true), files, {archive});
    assert {archive} == {archive} + Orphans(files);
    assert files - {archive} == {info};
    assert |info.ext| != |ARCHIVE|;
    assert info in {info} && !HasArchive({info}, info);
    assert Unstamped({info}, {"1"}) == {} && Orphans({info}) == {info};
    assert FirstPass(Args(false, Some({"1"}), true), {info}, {}) && {info} == {} + Orphans({info});
  }
}
