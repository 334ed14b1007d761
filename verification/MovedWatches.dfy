/**
 Following directory moves: the notifier's handling of IN_MOVED_FROM, IN_MOVED_TO and
 IN_MOVE_SELF, which renames the paths of the watches in the moved subtree.
 */
module MovedWatches {
  import opened Wrappers
  import opened Sequences
  import opened Text

  const SEP := '/'

  // ---- Paths ----

  /** `os.path.join` */
  function JoinPath(p: string, n: string): string {
    if n != "" && n[0] == SEP then n
    else if p == "" || p[|p| - 1] == SEP then p + n
    else p + [SEP] + n
  }

  /** The loop of `os.path.normpath` over the components. */
  function Resolve(comps: seq<string>, acc: seq<string>, absolute: bool): seq<string>
    decreases |comps|
  {
    if comps == [] then acc
    else
      var c := comps[0];
      if c == "" || c == "." then Resolve(comps[1..], acc, absolute)
      else if c != ".." || (!absolute && acc == []) || (acc != [] && acc[|acc| - 1] == "..") then
        Resolve(comps[1..], acc + [c], absolute)
      else if acc != [] then Resolve(comps[1..], acc[..|acc| - 1], absolute)
      else Resolve(comps[1..], acc, absolute)
  }

  /** `os.path.normpath`: exactly two leading slashes are kept, as POSIX allows. */
  function NormPath(p: string): string {
    if p == "" then "."
    else
      var slashes := if p[0] != SEP then 0 else if StartsWith(p, "//") && !StartsWith(p, "///") then 2 else 1;
      var body := Join(Resolve(Split(p, SEP), [], slashes > 0), SEP);
      var path := if slashes == 2 then "//" + body else if slashes == 1 then "/" + body else body;
      if path == "" then "." else path
  }

  predicate CleanComponent(c: string) {
    c != "" && c != "." && c != ".." && SEP !in c
  }

  /** A normalised absolute path other than the root. */
  predicate CleanPath(p: string) {
    && p != "" && p[0] == SEP
    && |Split(p, SEP)| >= 2 && Split(p, SEP)[0] == ""
    && forall i | 1 <= i < |Split(p, SEP)| :: CleanComponent(Split(p, SEP)[i])
  }

  /** A place where things can be: a clean path or the root. */
  predicate CleanDir(p: string) {
    p == "/" || CleanPath(p)
  }

  lemma {:induction false} ResolveClean(comps: seq<string>, acc: seq<string>, absolute: bool)
    requires forall i | 0 <= i < |comps| :: CleanComponent(comps[i])
    ensures Resolve(comps, acc, absolute) == acc + comps
    decreases |comps|
  {
    if comps == [] {
      assert acc + comps == acc;
    } else {
      ResolveClean(comps[1..], acc + [comps[0]], absolute);
      assert acc + [comps[0]] + comps[1..] == acc + comps;
    }
  }

  /** Normalising leaves a clean path alone. */
  lemma NormPathClean(p: string)
    requires CleanPath(p)
    ensures NormPath(p) == p
  {
    var parts := Split(p, SEP);
    SplitParts(p, SEP);
    assert parts == [""] + parts[1..];
    ResolveClean(parts[1..], [], true);
    assert [] + parts[1..] == parts[1..];
    assert Resolve(parts, [], true) == Resolve(parts[1..], [], true);
    assert p == [SEP] + Join(parts[1..], SEP);
    CleanSecond(p);
  }

  /** A clean path does not start with two slashes. */
  lemma CleanSecond(p: string)
    requires CleanPath(p)
    ensures |p| >= 2 && p[1] != SEP
  {
    var rest := p[1..];
    assert p == "" + [SEP] + rest;
    SplitFirst("", rest, SEP);
    assert Split(p, SEP)[1] == Split(rest, SEP)[0] == rest[..IndexOf(rest, SEP)];
  }

  /** A directory and a name in it make a clean path. */
  lemma JoinClean(dir: string, n: string)
    requires CleanDir(dir) && CleanComponent(n)
    ensures CleanPath(JoinPath(dir, n)) && NormPath(JoinPath(dir, n)) == JoinPath(dir, n)
  {
    SplitNone(n, SEP);
    if dir == "/" {
      assert "/" + n == "" + [SEP] + n;
      SplitFirst("", n, SEP);
    } else {
      CleanEnd(dir);
      SplitAppend(dir, n, SEP);
    }
    NormPathClean(JoinPath(dir, n));
  }

  lemma CleanEnd(p: string)
    requires CleanPath(p)
    ensures p[|p| - 1] != SEP
  {
    if p[|p| - 1] == SEP {
      EmptyLastPart(p);
    }
  }

  lemma EmptyLastPart(p: string)
    requires p != "" && p[|p| - 1] == SEP
    ensures LastPart(p, SEP) == ""
  {
    var q := p[..|p| - 1];
    assert p == q + [SEP] + "";
    SplitAppend(q, "", SEP);
    SplitNone("", SEP);
  }

  /** `q` lies strictly below `p`. */
  predicate Under(p: string, q: string) {
    StartsWith(q, p + [SEP])
  }

  lemma UnderForm(p: string, q: string)
    requires Under(p, q) && CleanPath(q)
    ensures var rest := q[|p| + 1..]; q == p + [SEP] + rest && rest != "" && rest[0] != SEP
  {
    var rest := q[|p| + 1..];
    assert q == p + [SEP] + rest;
    SplitAppend(p, rest, SEP);
    var i := |Split(p, SEP)|;
    assert Split(q, SEP)[i] == Split(rest, SEP)[0] == rest[..IndexOf(rest, SEP)];
    assert CleanComponent(Split(q, SEP)[i]);
  }

  // ---- The tables ----

  datatype Watch = Watch(path: string, auto_add: bool, excludes: set<string>)

  datatype State = State(wmd: map<int, Watch>, mv_cookie: map<nat, string>, mv: map<string, string>)

  const UNKNOWN := "-unknown-path"

  predicate EndsWith(s: string, suffix: string) {
    |s| >= |suffix| && s[|s| - |suffix|..] == suffix
  }

  /** What the renaming loop does to one watch. */
  function Renamed(path: string, src: string, dest: string): string {
    if Under(src, path) then JoinPath(dest, path[|src| + 1..]) else path
  }

  function MovedFrom(s: State, wd: int, name: string, cookie: nat): State
    requires wd in s.wmd
  {
    s.(mv_cookie := s.mv_cookie[cookie := NormPath(JoinPath(s.wmd[wd].path, name))])
  }

  function MovedTo(s: State, wd: int, name: string, cookie: nat): State
    requires wd in s.wmd
  {
    if cookie in s.mv_cookie then
      s.(mv := s.mv[s.mv_cookie[cookie] := NormPath(JoinPath(s.wmd[wd].path, name))])
    else s
  }

  function RenameAll(wmd: map<int, Watch>, src: string, dest: string): map<int, Watch> {
    map k | k in wmd :: wmd[k].(path := Renamed(wmd[k].path, src, dest))
  }

  function MoveSelf(s: State, wd: int): State
    requires wd in s.wmd
  {
    var src := s.wmd[wd].path;
    if src in s.mv then
      s.(wmd := RenameAll(s.wmd[wd := s.wmd[wd].(path := s.mv[src])], src, s.mv[src]))
    else if EndsWith(src, UNKNOWN) then s
    else s.(wmd := s.wmd[wd := s.wmd[wd].(path := src + UNKNOWN)])
  }

  class SysProcessEvent {
    var wmd: map<int, Watch>
    var mv_cookie: map<nat, string>
    var mv: map<string, string>

    ghost function Now(): State
      reads this
    {
      State(wmd, mv_cookie, mv)
    }

    constructor (wmd: map<int, Watch>)
      ensures Now() == State(wmd, map[], map[])
    {
      this.wmd, mv_cookie, mv := wmd, map[], map[];
    }

    method ProcessMovedFrom(wd: int, name: string, cookie: nat)
      requires wd in wmd
      modifies this
      ensures Now() == MovedFrom(old(Now()), wd, name, cookie)
      ensures wmd == old(wmd) && mv == old(mv)
      ensures mv_cookie == old(mv_cookie)[cookie := NormPath(JoinPath(wmd[wd].path, name))]
    {
      var src_path := NormPath(JoinPath(wmd[wd].path, name));
      mv_cookie := mv_cookie[cookie := src_path];
    }

    /** `add` when a directory came in from an unwatched place and is to be watched with its subtree. */
    method ProcessMovedTo(wd: int, name: string, cookie: nat, isdir: bool) returns (add: bool)
      requires wd in wmd
      modifies this
      ensures Now() == MovedTo(old(Now()), wd, name, cookie)
      ensures wmd == old(wmd) && mv_cookie == old(mv_cookie)
      ensures mv == if cookie in mv_cookie
                    then old(mv)[mv_cookie[cookie] := NormPath(JoinPath(wmd[wd].path, name))] else old(mv)
      ensures add <==> cookie !in mv_cookie && isdir && wmd[wd].auto_add
                       && NormPath(JoinPath(wmd[wd].path, name)) !in wmd[wd].excludes
    {
      var watch := wmd[wd];
      var dst_path := NormPath(JoinPath(watch.path, name));
      add := false;
      if cookie in mv_cookie {
        mv := mv[mv_cookie[cookie] := dst_path];
      } else if isdir && watch.auto_add && dst_path !in watch.excludes {
        add := true;
      }
    }

    method ProcessMoveSelf(wd: int)
      requires wd in wmd
      modifies this
      ensures Now() == MoveSelf(old(Now()), wd)
      ensures mv == old(mv) && mv_cookie == old(mv_cookie) && wmd.Keys == old(wmd).Keys
    {
      var src_path := wmd[wd].path;
      if src_path in mv {
        var dest_path := mv[src_path];
        wmd := wmd[wd := wmd[wd].(path := dest_path)];
        ghost var before := wmd;
        var prefix := src_path + [SEP];
        var items := wmd.Items;
        while items != {}
          invariant wmd.Keys == before.Keys && items <= before.Items
          invariant mv == old(mv) && mv_cookie == old(mv_cookie)
          invariant forall k | k in before ::
                      wmd[k] == if (k, before[k]) in items then before[k]
                                else before[k].(path := Renamed(before[k].path, src_path, dest_path))
          decreases |items|
        {
          var item :| item in items;
          items := items - {item};
          var (k, w) := item;
          assert item in before.Items && k in before && before[k] == w;
          if StartsWith(w.path, prefix) {
            wmd := wmd[k := w.(path := JoinPath(dest_path, w.path[|prefix|..]))];
          }
        }
        forall k | k in before
          ensures wmd[k] == before[k].(path := Renamed(before[k].path, src_path, dest_path))
        {
          assert (k, before[k]) !in items;
        }
        assert wmd == RenameAll(before, src_path, dest_path);
      } else if !EndsWith(src_path, UNKNOWN) {
        wmd := wmd[wd := wmd[wd].(path := src_path + UNKNOWN)];
      }
    }
  }

  // ---- Normalising ----

  lemma {:induction false} ResolveAppend(a: seq<string>, b: seq<string>, acc: seq<string>, absolute: bool)
    ensures Resolve(a + b, acc, absolute) == Resolve(b, Resolve(a, acc, absolute), absolute)
    decreases |a|
  {
    if a == [] {
      assert a + b == b;
    } else {
      assert (a + b)[1..] == a[1..] + b;
      var c := a[0];
      var next := if c == "" || c == "." then acc
          else if c != ".." || (!absolute && acc == []) || (acc != [] && acc[|acc| - 1] == "..") then acc + [c]
          else if acc != [] then acc[..|acc| - 1] else acc;
      ResolveAppend(a[1..], b, next, absolute);
    }
  }

  /** Empty components and single dots do not matter. */
  lemma DotsDrop(a: seq<string>, dot: string, b: seq<string>, absolute: bool)
    requires dot == "" || dot == "."
    ensures Resolve(a + [dot] + b, [], absolute) == Resolve(a + b, [], absolute)
  {
    ResolveAppend(a + [dot], b, [], absolute);
    ResolveAppend(a, [dot], [], absolute);
    ResolveAppend(a, b, [], absolute);
    var acc := Resolve(a, [], absolute);
    assert [dot][0] == dot && [dot][1..] == [];
    assert Resolve([dot], acc, absolute) == Resolve([], acc, absolute) == acc;
  }

  /** A component and the double dots behind it cancel. */
  lemma ParentCancels(a: seq<string>, c: string, b: seq<string>, absolute: bool)
    requires c != "" && c != "." && c != ".."
    ensures Resolve(a + [c, ".."] + b, [], absolute) == Resolve(a + b, [], absolute)
  {
    ResolveAppend(a + [c, ".."], b, [], absolute);
    ResolveAppend(a, [c, ".."], [], absolute);
    ResolveAppend(a, b, [], absolute);
    var acc := Resolve(a, [], absolute);
    DownAndUp(acc, c, absolute);
  }

  lemma DownAndUp(acc: seq<string>, c: string, absolute: bool)
    requires c != "" && c != "." && c != ".."
    ensures Resolve([c, ".."], acc, absolute) == acc
  {
    assert [c, ".."][1..] == [".."] && [".."][1..] == [];
    assert Resolve([c, ".."], acc, absolute) == Resolve([".."], acc + [c], absolute);
    assert (acc + [c])[..|acc + [c]| - 1] == acc;
    assert Resolve([".."], acc + [c], absolute) == Resolve([], acc, absolute);
  }

  /** Double dots at the start: there is nothing above the root, and a relative path keeps them. */
  lemma {:induction false} LeadingParents(n: nat, b: seq<string>, acc: seq<string>, absolute: bool)
    requires forall i | 0 <= i < |b| :: CleanComponent(b[i])
    requires (absolute ==> acc == []) && forall i | 0 <= i < |acc| :: acc[i] == ".."
    ensures Resolve(seq(n, _ => "..") + b, acc, absolute) == if absolute then b else acc + seq(n, _ => "..") + b
    decreases n
  {
    var up := seq(n, _ => "..");
    if n == 0 {
      assert up + b == b && acc + up == acc && acc + b == if absolute then b else acc + b;
      ResolveClean(b, acc, absolute);
    } else {
      var rest := seq(n - 1, _ => "..");
      assert up == [".."] + rest && (up + b)[0] == ".." && (up + b)[1..] == rest + b;
      LeadingParents(n - 1, b, if absolute then acc else acc + [".."], absolute);
      assert acc + [".."] + rest == acc + up;
    }
  }

  /** Components of a path, as they stand behind its leading slashes. */
  predicate Components(comps: seq<string>) {
    comps != [] && comps[0] != "" && forall i | 0 <= i < |comps| :: SEP !in comps[i]
  }

  /**
   Normalising is resolving the components: behind one leading slash, which may have been three or more, behind
   exactly two, or behind none, where nothing left means the current directory.
   */
  lemma NormPathMeaning(comps: seq<string>)
    requires Components(comps)
    ensures var p, absolute, relative :=
              Join(comps, SEP), Join(Resolve(comps, [], true), SEP), Join(Resolve(comps, [], false), SEP);
            && NormPath("/" + p) == "/" + absolute
            && NormPath("//" + p) == "//" + absolute
            && NormPath("///" + p) == "/" + absolute
            && NormPath(p) == if relative == "" then "." else relative
    ensures NormPath("") == "."
  {
    var p := Join(comps, SEP);
    SplitJoin(comps, SEP);
    FirstLetter(comps);
    NoSlash(p);
    OneSlash(p);
    TwoSlashes(p);
    ThreeSlashes(p);
  }

  lemma NoSlash(p: string)
    requires p != "" && p[0] != SEP
    ensures var body := Join(Resolve(Split(p, SEP), [], false), SEP); NormPath(p) == if body == "" then "." else body
  {
  }

  lemma OneSlash(p: string)
    requires p != "" && p[0] != SEP
    ensures NormPath("/" + p) == "/" + Join(Resolve(Split(p, SEP), [], true), SEP)
  {
    var q := "/" + p;
    assert q[0] == SEP && q[1] == p[0];
    SlashSplit(p);
    EmptyFirst(Split(p, SEP));
  }

  lemma TwoSlashes(p: string)
    requires p != "" && p[0] != SEP
    ensures NormPath("//" + p) == "//" + Join(Resolve(Split(p, SEP), [], true), SEP)
  {
    var q := "//" + p;
    assert q == "/" + ("/" + p) && q[0] == SEP && q[1] == SEP && q[2] == p[0];
    SlashSplit(p);
    SlashSplit("/" + p);
    EmptyFirst(Split(p, SEP));
    EmptyFirst([""] + Split(p, SEP));
  }

  lemma ThreeSlashes(p: string)
    requires p != "" && p[0] != SEP
    ensures NormPath("///" + p) == "/" + Join(Resolve(Split(p, SEP), [], true), SEP)
  {
    var q := "///" + p;
    assert q == "/" + ("/" + ("/" + p)) && q[0] == SEP && q[1] == SEP && q[2] == SEP;
    SlashSplit(p);
    SlashSplit("/" + p);
    SlashSplit("/" + ("/" + p));
    EmptyFirst(Split(p, SEP));
    EmptyFirst([""] + Split(p, SEP));
    EmptyFirst([""] + ([""] + Split(p, SEP)));
  }

  lemma FirstLetter(comps: seq<string>)
    requires Components(comps)
    ensures var p := Join(comps, SEP); p != "" && p[0] != SEP
  {
    assert Join(comps, SEP)[0] == comps[0][0];
  }

  lemma SlashSplit(p: string)
    ensures Split("/" + p, SEP) == [""] + Split(p, SEP)
  {
    assert "/" + p == "" + [SEP] + p;
    SplitFirst("", p, SEP);
  }

  lemma EmptyFirst(comps: seq<string>)
    ensures Resolve([""] + comps, [], true) == Resolve(comps, [], true)
  {
    assert ([""] + comps)[1..] == comps;
  }

  /** Joining: an absolute name stands alone, and no second slash is put behind a directory. */
  lemma JoinForms(dir: string, n: string)
    ensures JoinPath(dir, "/" + n) == "/" + n
    ensures (n == "" || n[0] != '/') && (dir == "" || dir[|dir| - 1] != '/') ==>
              && JoinPath("", n) == n && JoinPath(dir + "/", n) == dir + "/" + n
              && (dir != "" ==> JoinPath(dir, n) == dir + "/" + n)
  {
  }

  // ---- A move to an unknown place ----

  /**
   A moved thing whose destination is not known gets a path that says so, once: a second event leaves it, as it
   leaves every path that already ends that way.
   */
  lemma UnknownDestination(s: State, wd: int)
    requires wd in s.wmd && s.wmd[wd].path !in s.mv && s.wmd[wd].path + "-unknown-path" !in s.mv
    ensures var path, once := s.wmd[wd].path, MoveSelf(s, wd);
            && MoveSelf(once, wd) == once && once.mv == s.mv && once.mv_cookie == s.mv_cookie
            && once.wmd.Keys == s.wmd.Keys && (forall k | k in s.wmd && k != wd :: once.wmd[k] == s.wmd[k])
            && ((exists p :: path == p + "-unknown-path") ==> once.wmd[wd] == s.wmd[wd])
            && (!(exists p :: path == p + "-unknown-path") ==>
                  once.wmd[wd] == s.wmd[wd].(path := path + "-unknown-path"))
  {
    var path := s.wmd[wd].path;
    SuffixForm(path, "-unknown-path");
    SuffixForm(path + "-unknown-path", "-unknown-path");
  }

  lemma SuffixForm(s: string, suffix: string)
    ensures EndsWith(s, suffix) <==> exists p :: s == p + suffix
    ensures EndsWith(s + suffix, suffix)
  {
    if EndsWith(s, suffix) {
      assert s == s[..|s| - |suffix|] + suffix;
    }
  }

  // ---- A whole move ----

  predicate UniquePaths(wmd: map<int, Watch>) {
    forall a, b | a in wmd && b in wmd && wmd[a].path == wmd[b].path :: a == b
  }

  /** The path in the moved place. */
  function Relocated(path: string, src: string, dest: string): string {
    if path == src then dest
    else if Under(src, path) then dest + path[|src|..]
    else path
  }

  /**
   A move seen through watched parents: `name1` in the directory of `wd1` became `name2` in
   the directory of `wd2`, and the moved thing, watched by `wd`, reports it.
   */
  ghost predicate Move(s: State, wd1: int, name1: string, wd2: int, name2: string, wd: int, src: string, dest: string) {
    && wd1 in s.wmd && wd2 in s.wmd && wd in s.wmd
    && (forall k | k in s.wmd :: CleanDir(s.wmd[k].path))
    && CleanComponent(name1) && CleanComponent(name2)
    && src == JoinPath(s.wmd[wd1].path, name1) && dest == JoinPath(s.wmd[wd2].path, name2)
    && s.wmd[wd].path == src && UniquePaths(s.wmd)
  }

  function AfterMove(s: State, wd1: int, name1: string, wd2: int, name2: string, cookie: nat, wd: int): State
    requires wd1 in s.wmd && wd2 in s.wmd && wd in s.wmd
  {
    MoveSelf(MovedTo(MovedFrom(s, wd1, name1, cookie), wd2, name2, cookie), wd)
  }

  lemma MoveForm(s: State, wd1: int, name1: string, wd2: int, name2: string, cookie: nat, wd: int, src: string,
                 dest: string)
    requires Move(s, wd1, name1, wd2, name2, wd, src, dest)
    ensures CleanPath(src) && CleanPath(dest)
    ensures AfterMove(s, wd1, name1, wd2, name2, cookie, wd).wmd ==
            RenameAll(s.wmd[wd := s.wmd[wd].(path := dest)], src, dest)
  {
    JoinClean(s.wmd[wd1].path, name1);
    JoinClean(s.wmd[wd2].path, name2);
  }

  lemma RenamedIsRelocated(path: string, src: string, dest: string)
    requires CleanDir(path) && CleanPath(src) && CleanPath(dest) && path != src
    ensures Renamed(path, src, dest) == Relocated(path, src, dest)
  {
    CleanEnd(dest);
    if Under(src, path) {
      CleanSecond(src);
      UnderForm(src, path);
      assert dest + [SEP] + path[|src| + 1..] == dest + path[|src|..];
    }
  }

  /**
   After the three events the watch of the moved thing and all watches below it have the
   source prefix replaced by the destination, and all others are untouched.  Only the moved
   watch itself, if its destination is below the source, is renamed once more.
   */
  lemma MoveRelocates(s: State, wd1: int, name1: string, wd2: int, name2: string, cookie: nat, wd: int,
                      src: string, dest: string, k: int)
    requires Move(s, wd1, name1, wd2, name2, wd, src, dest) && k in s.wmd
    ensures var wmd, path := AfterMove(s, wd1, name1, wd2, name2, cookie, wd).wmd, Relocated(s.wmd[k].path, src, dest);
            k in wmd && wmd[k] == s.wmd[k].(path := if k == wd then Relocated(dest, src, dest) else path)
  {
    MoveForm(s, wd1, name1, wd2, name2, cookie, wd, src, dest);
    if k != wd {
      assert s.wmd[k].path != src;
      RenamedIsRelocated(s.wmd[k].path, src, dest);
    } else if dest != src {
      RenamedIsRelocated(dest, src, dest);
    }
  }

  lemma RelocatedForm(path: string, src: string, dest: string)
    requires path == src || Under(src, path)
    ensures path == src + path[|src|..] && Relocated(path, src, dest) == dest + path[|src|..]
    ensures Relocated(path, src, dest) == dest || Under(dest, Relocated(path, src, dest))
  {
    if path != src {
      assert path[|src|] == SEP;
      var rest := path[|src| + 1..];
      assert path[|src|..] == [SEP] + rest;
      assert dest + path[|src|..] == dest + [SEP] + rest;
    } else {
      assert path[|src|..] == "" && dest + "" == dest;
    }
  }

  /** If nothing was watched at or below the destination, every path is still watched once. */
  lemma MoveKeepsUnique(s: State, wd1: int, name1: string, wd2: int, name2: string, cookie: nat, wd: int, src: string,
                        dest: string)
    requires Move(s, wd1, name1, wd2, name2, wd, src, dest) && !Under(src, dest)
    requires forall k | k in s.wmd :: s.wmd[k].path != dest && !Under(dest, s.wmd[k].path)
    ensures UniquePaths(AfterMove(s, wd1, name1, wd2, name2, cookie, wd).wmd)
  {
    var wmd := AfterMove(s, wd1, name1, wd2, name2, cookie, wd).wmd;
    MoveForm(s, wd1, name1, wd2, name2, cookie, wd, src, dest);
    forall a, b | a in wmd && b in wmd && wmd[a].path == wmd[b].path
      ensures a == b
    {
      MoveRelocates(s, wd1, name1, wd2, name2, cookie, wd, src, dest, a);
      MoveRelocates(s, wd1, name1, wd2, name2, cookie, wd, src, dest, b);
      var p, q := s.wmd[a].path, s.wmd[b].path;
      if p == src || Under(src, p) {
        RelocatedForm(p, src, dest);
      }
      if q == src || Under(src, q) {
        RelocatedForm(q, src, dest);
      }
      if (p == src || Under(src, p)) && (q == src || Under(src, q)) {
        Cancel(dest, p[|src|..], q[|src|..]);
      }
    }
  }

  lemma UnderSuffix(base: string, x: string, y: string)
    ensures Under(base + x, base + y) <==> StartsWith(y, x + [SEP])
  {
    assert base + x + [SEP] == base + (x + [SEP]);
    if base + (x + [SEP]) <= base + y {
      assert (base + (x + [SEP]))[|base|..] == x + [SEP];
      assert (base + y)[|base|..][..|x| + 1] == (base + y)[..|base| + |x| + 1][|base|..];
    }
    if x + [SEP] <= y {
      assert (base + y)[..|base| + |x| + 1] == base + y[..|x| + 1];
    }
  }

  /** Inside the moved subtree a watch is below another after the move exactly if it was before. */
  lemma MoveKeepsUnder(s: State, wd1: int, name1: string, wd2: int, name2: string, cookie: nat, wd: int, src: string,
                       dest: string, a: int, b: int)
    requires Move(s, wd1, name1, wd2, name2, wd, src, dest) && !Under(src, dest) && a in s.wmd && b in s.wmd
    requires s.wmd[a].path == src || Under(src, s.wmd[a].path)
    requires s.wmd[b].path == src || Under(src, s.wmd[b].path)
    ensures var wmd := AfterMove(s, wd1, name1, wd2, name2, cookie, wd).wmd;
            && a in wmd && b in wmd
            && (Under(wmd[a].path, wmd[b].path) <==> Under(s.wmd[a].path, s.wmd[b].path))
  {
    MoveRelocates(s, wd1, name1, wd2, name2, cookie, wd, src, dest, a);
    MoveRelocates(s, wd1, name1, wd2, name2, cookie, wd, src, dest, b);
    var p, q := s.wmd[a].path, s.wmd[b].path;
    RelocatedForm(p, src, dest);
    RelocatedForm(q, src, dest);
    UnderSuffix(src, p[|src|..], q[|src|..]);
    UnderSuffix(dest, p[|src|..], q[|src|..]);
  }

  /**
   The moved watch itself ends at the destination exactly if that is not below the source;
   otherwise the loop renames it a second time.
   */
  lemma MovedWatchItself(s: State, wd1: int, name1: string, wd2: int, name2: string, cookie: nat, wd: int, src: string,
                         dest: string)
    requires Move(s, wd1, name1, wd2, name2, wd, src, dest)
    ensures var wmd := AfterMove(s, wd1, name1, wd2, name2, cookie, wd).wmd;
            wd in wmd && (wmd[wd].path == dest <==> !Under(src, dest))
  {
    MoveForm(s, wd1, name1, wd2, name2, cookie, wd, src, dest);
    if Under(src, dest) {
      UnderForm(src, dest);
      CleanEnd(dest);
      assert |Renamed(dest, src, dest)| > |dest|;
    }
  }

  lemma JoinLonger(dir: string, n: string)
    requires CleanPath(dir) && CleanComponent(n)
    ensures JoinPath(dir, n) == dir + [SEP] + n && Under(dir, JoinPath(dir, n)) && |JoinPath(dir, n)| > |dir|
  {
    CleanEnd(dir);
  }

  /** A stale path names a place that could exist. */
  lemma StaleIsClean(dir: string, n: string)
    requires CleanPath(dir) && CleanComponent(n)
    ensures CleanPath(JoinPath(dir, n) + UNKNOWN)
    ensures exists rest :: JoinPath(dir, n) + UNKNOWN == dir + [SEP] + rest
  {
    assert CleanComponent(n + UNKNOWN);
    JoinClean(dir, n + UNKNOWN);
    JoinLonger(dir, n);
    JoinLonger(dir, n + UNKNOWN);
    assert JoinPath(dir, n) + UNKNOWN == dir + [SEP] + (n + UNKNOWN);
  }

  lemma UnderJoined(src: string, dir: string, n: string)
    requires CleanPath(dir) && CleanComponent(n) && Under(src, dir)
    ensures Under(src, JoinPath(dir, n))
  {
    JoinLonger(dir, n);
  }

  /** The watches of a directory, of `d` in it and of `x` in that. */
  function Nested(root: string, src: string, inner: string): map<int, Watch> {
    map[1 := Watch(root, false, {}), 2 := Watch(src, false, {}), 3 := Watch(inner, false, {})]
  }

  /**
   How such a destination arises: `x` leaves `d` for a place that is not watched, its watch keeps a
   stale path below `d`, and then `d` moves into `x`.  The watch of `d` does not end at its destination.
   */
  lemma StalePathMisplaced(root: string, d: string, x: string, e: string, cookie: nat)
    requires CleanDir(root) && CleanComponent(d) && CleanComponent(x) && CleanComponent(e)
    requires !EndsWith(JoinPath(JoinPath(root, d), x), UNKNOWN)
    ensures var src := JoinPath(root, d);
            var inner := JoinPath(src, x);
            var s := MoveSelf(State(Nested(root, src, inner), map[], map[]), 3);
            var dest := JoinPath(inner + UNKNOWN, e);
            && s.wmd == Nested(root, src, inner + UNKNOWN) && Move(s, 1, d, 3, e, 2, src, dest)
            && AfterMove(s, 1, d, 3, e, cookie, 2).wmd[2].path != dest
  {
    var src := JoinPath(root, d);
    var inner := JoinPath(src, x);
    JoinClean(root, d);
    StaleIsClean(src, x);
    JoinLonger(src, x);
    UnderJoined(src, inner + UNKNOWN, e);
    BecomesStale(root, src, inner);
    NestedMove(root, d, src, inner + UNKNOWN, e);
    MovedWatchItself(State(Nested(root, src, inner + UNKNOWN), map[], map[]), 1, d, 3, e, cookie, 2, src,
        JoinPath(inner + UNKNOWN, e));
  }

  lemma BecomesStale(root: string, src: string, inner: string)
    requires !EndsWith(inner, UNKNOWN)
    ensures MoveSelf(State(Nested(root, src, inner), map[], map[]), 3) ==
            State(Nested(root, src, inner + UNKNOWN), map[], map[])
  {
  }

  lemma NestedMove(root: string, d: string, src: string, stale: string, e: string)
    requires CleanDir(root) && CleanComponent(d) && CleanComponent(e) && CleanPath(stale)
    requires src == JoinPath(root, d) && CleanPath(src) && |src| < |stale|
    ensures Move(State(Nested(root, src, stale), map[], map[]), 1, d, 3, e, 2, src, JoinPath(stale, e))
  {
    assert |root| < |src|;
  }
}
