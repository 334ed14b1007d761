/**
 BitBake's cache for several processes.

 Workers save what they have found out in files of their own, under a shared lock of the
 whole cache and an exclusive lock of the file's index; one process merges these files into
 the stored table under an exclusive lock of the whole cache.  The processes are modelled as
 a state machine whose steps interleave freely.
 */
module MultiProcessCache {
  import opened Wrappers

  type Key = string
  type Val = string
  type Table = map<Key, Val>
  type Version = int

  /** A cache file; `Unreadable` where loading raises IOError or EOFError. */
  datatype File = Extras(data: seq<Table>, version: Version) | Unreadable

  // ---- Merging tables ----

  /** An entry that is there already wins. */
  function MergeTable(source: Table, dest: Table): Table {
    map k | k in source.Keys + dest.Keys :: if k in dest then dest[k] else source[k]
  }

  function MergeTables(source: seq<Table>, dest: seq<Table>): (r: seq<Table>)
    requires |source| == |dest|
    ensures |r| == |dest|
  {
    seq(|dest|, j requires 0 <= j < |dest| => MergeTable(source[j], dest[j]))
  }

  /** `b` has every entry of `a`. */
  predicate Extends(a: seq<Table>, b: seq<Table>) {
    && |a| == |b|
    && forall j, k | 0 <= j < |a| && k in a[j] :: k in b[j] && b[j][k] == a[j][k]
  }

  /** `b` has every key of `a`. */
  predicate Covers(a: seq<Table>, b: seq<Table>) {
    && |a| == |b|
    && forall j, k | 0 <= j < |a| && k in a[j] :: k in b[j]
  }

  /** The smallest table that has the entries of `dest` and the keys of both. */
  lemma MergeTablesMeaning(source: seq<Table>, dest: seq<Table>)
    requires |source| == |dest|
    ensures Extends(dest, MergeTables(source, dest)) && Covers(source, MergeTables(source, dest))
    ensures forall j, k | 0 <= j < |dest| && k in MergeTables(source, dest)[j] ::
              if k in dest[j] then MergeTables(source, dest)[j][k] == dest[j][k]
              else k in source[j] && MergeTables(source, dest)[j][k] == source[j][k]
  {
  }

  lemma ExtendsTransitive(a: seq<Table>, b: seq<Table>, c: seq<Table>)
    requires Extends(b, c)
    ensures Extends(a, b) ==> Extends(a, c)
    ensures Covers(a, b) ==> Covers(a, c)
  {
  }

  /** The state of the inner loop when the keys in `todo` have not been looked at. */
  ghost predicate PartlyMerged(source: Table, dest: Table, todo: set<Key>, now: Table) {
    && todo <= source.Keys && now.Keys == dest.Keys + (source.Keys - todo)
    && forall k | k in now :: now[k] == if k in dest then dest[k] else source[k]
  }

  lemma PartlyMergedStep(source: Table, dest: Table, todo: set<Key>, now: Table, h: Key)
    requires PartlyMerged(source, dest, todo, now) && h in todo
    ensures PartlyMerged(source, dest, todo - {h}, if h in now then now else now[h := source[h]])
  {
  }

  lemma PartlyMergedAll(source: Table, dest: Table, now: Table)
    requires PartlyMerged(source, dest, {}, now)
    ensures now == MergeTable(source, dest)
  {
  }

  /** The inner loop of `merge_data`: the entries of one table that are not there yet. */
  method MergeEntries(source: Table, dest: Table) returns (now: Table)
    ensures now == MergeTable(source, dest)
  {
    now := dest;
    var hs := source.Keys;
    while hs != {}
      invariant PartlyMerged(source, dest, hs, now)
      decreases |hs|
    {
      var h :| h in hs;
      PartlyMergedStep(source, dest, hs, now, h);
      hs := hs - {h};
      if h !in now {
        now := now[h := source[h]];
      }
    }
    PartlyMergedAll(source, dest, now);
  }

  /** The merging process: its table in memory, and the directory it works in. */
  class Merger {
    const version: Version
    var cachedata: seq<Table>
    var files: map<nat, File>
    var stored: Option<seq<Table>>

    constructor (version: Version, data: seq<Table>, files: map<nat, File>, stored: Option<seq<Table>>)
      ensures this.version == version && cachedata == data && this.files == files && this.stored == stored
    {
      this.version, cachedata, this.files, this.stored := version, data, files, stored;
    }

    /** `merge_data` into the table in memory. */
    method MergeData(source: seq<Table>)
      requires |source| == |cachedata|
      modifies this`cachedata
      ensures cachedata == MergeTables(source, old(cachedata))
    {
      ghost var dest := cachedata;
      for j := 0 to |cachedata|
        invariant |cachedata| == |dest|
        invariant forall i | 0 <= i < j :: cachedata[i] == MergeTable(source[i], dest[i])
        invariant forall i | j <= i < |dest| :: cachedata[i] == dest[i]
      {
        var table := MergeEntries(source[j], cachedata[j]);
        cachedata := cachedata[j := table];
      }
      assert cachedata == MergeTables(source, dest);
    }

    /** One turn of the loop of `save_merge`: the file is merged if it can be, and removed. */
    method TakeFile(f: nat) returns (merged: bool)
      requires f in files && (Accepts(version, files[f]) ==> |files[f].data| == |cachedata|)
      modifies this
      ensures files == old(files) - {f} && stored == old(stored)
      ensures merged <==> old(files)[f].Extras? && old(files)[f].version == version
      ensures cachedata == if merged then MergeTables(old(files)[f].data, old(cachedata)) else old(cachedata)
    {
      merged := false;
      match files[f] {
        case Unreadable =>
        case Extras(extradata, v) =>
          if v == version {
            MergeData(extradata);
            merged := true;
          }
      }
      files := files - {f};
    }

    /** `save_merge` under its lock, with the files in the order of the directory listing. */
    method SaveMerge(order: seq<nat>)
      requires forall i :: i in order <==> i in files
      requires forall x, y | 0 <= x < y < |order| :: order[x] != order[y]
      requires forall i | i in files && Accepts(version, files[i]) :: |files[i].data| == |cachedata|
      modifies this
      ensures files == map[]
      ensures Extends(old(cachedata), cachedata)
      ensures forall i | i in old(files) && Accepts(version, old(files)[i]) :: Covers(old(files)[i].data, cachedata)
      ensures stored == if exists i | i in old(files) :: old(files)[i].Extras? && old(files)[i].version == version
                        then Some(cachedata) else old(stored)
      // every entry is an old one, or that of the first file of this version, in the order of the listing, that has it
      ensures |cachedata| == |old(cachedata)|
      ensures forall j, k | 0 <= j < |cachedata| && k in cachedata[j] ::
                if k in old(cachedata)[j] then cachedata[j][k] == old(cachedata)[j][k]
                else exists x: nat | x < |order| :: Brings(version, old(files), order, x, j, k, cachedata[j][k])
      ensures (forall i | i in old(files) :: !Accepts(version, old(files)[i])) ==> cachedata == old(cachedata)
    {
      var have_data := false;
      ghost var dir, data, done: set<nat> := files, cachedata, {};
      for n := 0 to |order|
        invariant stored == old(stored)
        invariant MergedSoFar(version, dir, files, data, cachedata, done)
        invariant Origins(version, dir, order, n, data, cachedata)
        invariant forall x | 0 <= x < |order| :: order[x] in (if x < n then done else files.Keys)
        invariant have_data <==> exists i | i in done :: Accepts(version, dir[i])
      {
        MergeStep(version, dir, files, data, cachedata, done, order[n]);
        OriginsStep(version, dir, order, n, data, cachedata, done);
        var merged := TakeFile(order[n]);
        if merged {
          have_data := true;
        }
        done := done + {order[n]};
      }
      if have_data {
        stored := Some(cachedata);
      }
    }
  }

  /** A file that `save_merge` merges rather than only removes. */
  predicate Accepts(version: Version, f: File) {
    f.Extras? && f.version == version
  }

  /** The files in `done` are gone; they are in the table if they could be. */
  ghost predicate MergedSoFar(version: Version, dir: map<nat, File>, files: map<nat, File>, data: seq<Table>,
                              now: seq<Table>, done: set<nat>) {
    && done <= dir.Keys && files == dir - done && Extends(data, now)
    && (forall i | i in done && Accepts(version, dir[i]) :: Covers(dir[i].data, now))
    && ((forall i | i in done :: !Accepts(version, dir[i])) ==> now == data)
  }

  /** File `x` of the listing is the first one of this version that has the key, and has it with this value. */
  predicate Brings(version: Version, dir: map<nat, File>, order: seq<nat>, x: nat, j: nat, k: Key, v: Val) {
    && HasEntry(version, dir, order, x, j, k) && dir[order[x]].data[j][k] == v
    && forall y: nat | y < x :: !HasEntry(version, dir, order, y, j, k)
  }

  predicate HasEntry(version: Version, dir: map<nat, File>, order: seq<nat>, x: nat, j: nat, k: Key) {
    && x < |order| && order[x] in dir && dir[order[x]].Extras? && dir[order[x]].version == version
    && j < |dir[order[x]].data| && k in dir[order[x]].data[j]
  }

  /** Where the entries come from when `n` files of the listing have been taken. */
  ghost predicate Origins(version: Version, dir: map<nat, File>, order: seq<nat>, n: nat, data: seq<Table>,
                          now: seq<Table>) {
    && |now| == |data|
    && forall j: nat, k | j < |now| && k in now[j] ::
         if k in data[j] then now[j][k] == data[j][k]
         else exists x: nat | x < n :: Brings(version, dir, order, x, j, k, now[j][k])
  }

  lemma OriginsStep(version: Version, dir: map<nat, File>, order: seq<nat>, n: nat, data: seq<Table>,
                    now: seq<Table>, done: set<nat>)
    requires n < |order| && order[n] in dir && Extends(data, now) && Origins(version, dir, order, n, data, now)
    requires forall x | 0 <= x < n :: order[x] in done
    requires done <= dir.Keys && forall i | i in done && Accepts(version, dir[i]) :: Covers(dir[i].data, now)
    requires Accepts(version, dir[order[n]]) ==> |dir[order[n]].data| == |now|
    ensures var next := if Accepts(version, dir[order[n]]) then MergeTables(dir[order[n]].data, now) else now;
            Origins(version, dir, order, n + 1, data, next)
  {
    var f := dir[order[n]];
    if Accepts(version, f) {
      var next := MergeTables(f.data, now);
      forall j: nat, k | j < |next| && k in next[j]
        ensures if k in data[j] then next[j][k] == data[j][k]
                else exists x: nat | x < n + 1 :: Brings(version, dir, order, x, j, k, next[j][k])
      {
        MergeTablesMeaning(f.data, now);
        if k in now[j] {
          assert next[j][k] == now[j][k];
        } else {
          NewEntry(version, dir, order, n, now, done, j, k);
          assert Brings(version, dir, order, n, j, k, next[j][k]);
        }
      }
    }
  }

  /** An entry that is not there yet was in none of the files taken. */
  lemma NewEntry(version: Version, dir: map<nat, File>, order: seq<nat>, n: nat, now: seq<Table>, done: set<nat>,
                 j: nat, k: Key)
    requires n <= |order| && j < |now| && k !in now[j]
    requires forall x | 0 <= x < n :: order[x] in done
    requires done <= dir.Keys && forall i | i in done && Accepts(version, dir[i]) :: Covers(dir[i].data, now)
    ensures forall y: nat | y < n :: !HasEntry(version, dir, order, y, j, k)
  {
    forall y: nat | y < n ensures !HasEntry(version, dir, order, y, j, k) {
      assert order[y] in done;
    }
  }

  lemma MergeStep(version: Version, dir: map<nat, File>, files: map<nat, File>, data: seq<Table>, now: seq<Table>,
                  done: set<nat>, f: nat)
    requires MergedSoFar(version, dir, files, data, now, done) && f in files
    requires Accepts(version, dir[f]) ==> |dir[f].data| == |now|
    ensures var next := if Accepts(version, dir[f]) then MergeTables(dir[f].data, now) else now;
            MergedSoFar(version, dir, files - {f}, data, next, done + {f})
  {
    if Accepts(version, dir[f]) {
      MergeKeeps(version, dir, data, now, done, dir[f].data);
    }
  }

  lemma MergeKeeps(version: Version, dir: map<nat, File>, data: seq<Table>, now: seq<Table>, done: set<nat>,
                   source: seq<Table>)
    requires done <= dir.Keys && |source| == |now| && Extends(data, now)
    requires forall i | i in done && Accepts(version, dir[i]) :: Covers(dir[i].data, now)
    ensures Extends(data, MergeTables(source, now)) && Covers(source, MergeTables(source, now))
    ensures forall i | i in done && Accepts(version, dir[i]) :: Covers(dir[i].data, MergeTables(source, now))
  {
    MergeTablesMeaning(source, now);
    ExtendsTransitive(data, now, MergeTables(source, now));
    forall i | i in done && Accepts(version, dir[i]) ensures Covers(dir[i].data, MergeTables(source, now)) {
      ExtendsTransitive(dir[i].data, now, MergeTables(source, now));
    }
  }

  // ---- The protocol ----

  /** Where a call of `save_extras` is. */
  datatype SaverPc =
    | Start               // before the shared lock of the cache
    | Searching(i: nat)   // about to try the lock of index `i`
    | Holding(i: nat)     // has the lock of `i`, about to look for its file
    | Writing(i: nat)     // has the lock of `i` and has seen no file
    | Written(i: nat)     // has written its file, still has the lock of `i`
    | Unlocking           // has only the shared lock left
    | Done

  datatype Saver = Saver(pid: nat, extras: seq<Table>, pc: SaverPc)

  /** Where the merging process is; `Merging` holds the files that are left to read. */
  datatype MergerPc = Idle | Listing | Merging(todo: seq<nat>, haveData: bool)

  datatype State = State(
    width: nat,
    version: Version,
    savers: map<nat, Saver>,
    files: map<nat, File>,
    released: set<nat>,
    merger: MergerPc,
    cachedata: seq<Table>,
    stored: Option<seq<Table>>)

  ghost predicate HoldsShared(pc: SaverPc) {
    !pc.Start? && !pc.Done?
  }

  ghost predicate HoldsIndex(pc: SaverPc, i: nat) {
    pc == Holding(i) || pc == Writing(i) || pc == Written(i)
  }

  ghost predicate HasWritten(pc: SaverPc) {
    pc.Written? || pc.Unlocking? || pc.Done?
  }

  ghost predicate HasData(extras: seq<Table>) {
    exists j :: 0 <= j < |extras| && extras[j] != map[]
  }

  ghost predicate LockedByOther(s: State, c: nat, i: nat) {
    exists d | d in s.savers :: d != c && HoldsIndex(s.savers[d].pc, i)
  }

  datatype Act =
    | Begin(c: nat, pid: nat, extras: seq<Table>)
    | LockShared(c: nat)
    | TryLock(c: nat, race: bool)
    | Check(c: nat)
    | Write(c: nat)
    | Unlock(c: nat)
    | Release(c: nat)
    | MLock
    | MList(order: seq<nat>)
    | MFile
    | MStore

  ghost predicate At(s: State, c: nat, p: SaverPc -> bool) {
    c in s.savers && p(s.savers[c].pc)
  }

  /**
   When a step can happen.  The attempt on an index lock can fail although the lock is free,
   namely when another saver removed the lock file between the opening and the locking; then
   that index has been released since the cache was last merged.
   */
  ghost predicate Enabled(s: State, a: Act) {
    match a
    case Begin(c, pid, extras) => c !in s.savers && |extras| == s.width && HasData(extras)
    case LockShared(c) => At(s, c, (p: SaverPc) => p.Start?) && s.merger.Idle?
    case TryLock(c, race) => At(s, c, (p: SaverPc) => p.Searching?) && (race ==> s.savers[c].pc.i in s.released)
    case Check(c) => At(s, c, (p: SaverPc) => p.Holding?)
    case Write(c) => At(s, c, (p: SaverPc) => p.Writing?)
    case Unlock(c) => At(s, c, (p: SaverPc) => p.Written?)
    case Release(c) => At(s, c, (p: SaverPc) => p.Unlocking?)
    case MLock => s.merger.Idle? && forall d | d in s.savers :: !HoldsShared(s.savers[d].pc)
    case MList(order) =>
      s.merger.Listing? && (forall i :: i in order <==> i in s.files)
      && forall x, y | 0 <= x < y < |order| :: order[x] != order[y]
    case MFile => s.merger.Merging? && s.merger.todo != [] && s.merger.todo[0] in s.files && |s.cachedata| == s.width
    case MStore => s.merger.Merging? && s.merger.todo == []
  }

  ghost function Move(s: State, c: nat, pc: SaverPc): State
    requires c in s.savers
  {
    s.(savers := s.savers[c := s.savers[c].(pc := pc)])
  }

  ghost function Next(s: State, a: Act): State
    requires Enabled(s, a)
  {
    match a
    case Begin(c, pid, extras) => s.(savers := s.savers[c := Saver(pid, extras, Start)])
    case LockShared(c) => Move(s, c, Searching(s.savers[c].pid))
    case TryLock(c, race) =>
      var i := s.savers[c].pc.i;
      if race || LockedByOther(s, c, i) then Move(s, c, Searching(i + 1)) else Move(s, c, Holding(i))
    case Check(c) =>
      var i := s.savers[c].pc.i;
      if i in s.files then Move(s, c, Searching(i + 1)).(released := s.released + {i}) else Move(s, c, Writing(i))
    case Write(c) =>
      var i := s.savers[c].pc.i;
      Move(s, c, Written(i)).(files := s.files[i := Extras(s.savers[c].extras, s.version)])
    case Unlock(c) => Move(s, c, Unlocking).(released := s.released + {s.savers[c].pc.i})
    case Release(c) => Move(s, c, SaverPc.Done)
    case MLock => s.(merger := Listing)
    case MList(order) => s.(merger := Merging(order, false))
    case MFile =>
      var f := s.merger.todo[0];
      var rest := s.(files := s.files - {f}, merger := s.merger.(todo := s.merger.todo[1..]));
      (match s.files[f]
       case Unreadable => rest
       case Extras(data, version) =>
         if version != s.version || |data| != s.width then rest
         else rest.(cachedata := MergeTables(data, s.cachedata), merger := rest.merger.(haveData := true)))
    case MStore =>
      s.(merger := Idle, released := {}, stored := if s.merger.haveData then Some(s.cachedata) else s.stored)
  }

  /** What `init_cache` leaves in memory: the stored table, or empty tables. */
  ghost function Loaded(width: nat, stored: Option<seq<Table>>): seq<Table> {
    if stored.Some? then stored.value else seq(width, _ => map[])
  }

  /** Any leftover files, no call under way, and a merger that has loaded the stored table. */
  ghost predicate Initial(s: State) {
    && s.savers == map[] && s.merger.Idle? && s.released == {}
    && (s.stored.Some? ==> |s.stored.value| == s.width)
    && s.cachedata == Loaded(s.width, s.stored)
  }

  // ---- The invariant ----

  /** The key is in the merged table or waits in a file that the merger will accept. */
  ghost predicate Kept(s: State, j: nat, k: Key) {
    (j < |s.cachedata| && k in s.cachedata[j]) || exists f | f in s.files :: InFile(s, s.files[f], j, k)
  }

  ghost predicate InFile(s: State, f: File, j: nat, k: Key) {
    f.Extras? && f.version == s.version && |f.data| == s.width && j < s.width && k in f.data[j]
  }

  ghost predicate LocksExclusive(s: State) {
    forall c, d, i | c in s.savers && d in s.savers && HoldsIndex(s.savers[c].pc, i) &&
        HoldsIndex(s.savers[d].pc, i) :: c == d
  }

  /** Every index that a search has passed has a file, or its lock is held by another saver. */
  ghost predicate Passed(s: State, c: nat, i: nat) {
    i in s.files || LockedByOther(s, c, i)
  }

  ghost predicate SaverInv(s: State, c: nat)
    requires c in s.savers
  {
    var sv := s.savers[c];
    && |sv.extras| == s.width
    && (!s.merger.Idle? ==> !HoldsShared(sv.pc))
    && (sv.pc.Writing? ==> sv.pc.i !in s.files)
    && (sv.pc.Written? ==> sv.pc.i in s.files)
    && (sv.pc.Searching? || sv.pc.Holding? || sv.pc.Writing? ==>
          sv.pid <= sv.pc.i && forall i | sv.pid <= i < sv.pc.i :: Passed(s, c, i))
    && (HasWritten(sv.pc) ==> forall j, k | 0 <= j < s.width && k in sv.extras[j] :: Kept(s, j, k))
  }

  ghost predicate MergerInv(s: State) {
    && |s.cachedata| == s.width
    && (s.stored.Some? ==> Extends(s.stored.value, s.cachedata))
    && (s.merger.Idle? ==> s.cachedata == Loaded(s.width, s.stored) && s.released <= s.files.Keys)
    && (s.merger.Merging? ==>
          && (forall i :: i in s.merger.todo <==> i in s.files)
          && (forall x, y | 0 <= x < y < |s.merger.todo| :: s.merger.todo[x] != s.merger.todo[y])
          && (!s.merger.haveData ==> s.cachedata == Loaded(s.width, s.stored)))
    && (s.merger.Listing? ==> s.cachedata == Loaded(s.width, s.stored))
  }

  ghost predicate Inv(s: State) {
    LocksExclusive(s) && MergerInv(s) && forall c | c in s.savers :: SaverInv(s, c)
  }

  lemma InitialInv(s: State)
    requires Initial(s)
    ensures Inv(s)
  {
  }

  lemma MergerInvStep(s: State, a: Act)
    requires Inv(s) && Enabled(s, a)
    ensures MergerInv(Next(s, a))
  {
    if a.MFile? {
      MergedFileStep(s, a);
    } else if a.MLock? || a.MList? || a.MStore? {
    } else {
      assert a.Begin? || SaverInv(s, a.c);
      SaverActStep(s, a);
    }
  }

  lemma MergedFileStep(s: State, a: Act)
    requires MergerInv(s) && Enabled(s, a) && a.MFile?
    ensures MergerInv(Next(s, a))
  {
    var f := s.merger.todo[0];
    if s.files[f].Extras? && s.files[f].version == s.version && |s.files[f].data| == s.width {
      MergeTablesMeaning(s.files[f].data, s.cachedata);
      if s.stored.Some? {
        ExtendsTransitive(s.stored.value, s.cachedata, MergeTables(s.files[f].data, s.cachedata));
      }
    }
  }

  /** Savers leave the merger alone; they release indexes that have files. */
  lemma SaverActStep(s: State, a: Act)
    requires MergerInv(s) && Enabled(s, a) && !a.MFile? && !a.MLock? && !a.MList? && !a.MStore?
    requires a.Begin? || (a.c in s.savers && SaverInv(s, a.c))
    ensures MergerInv(Next(s, a))
  {
  }

  lemma LocksStep(s: State, a: Act)
    requires Inv(s) && Enabled(s, a)
    ensures LocksExclusive(Next(s, a))
  {
  }

  /** What is kept stays kept: the merger takes a file away only after merging it. */
  lemma KeptStep(s: State, a: Act, j: nat, k: Key)
    requires Inv(s) && Enabled(s, a) && Kept(s, j, k) && j < s.width
    ensures Kept(Next(s, a), j, k)
  {
    if !(j < |s.cachedata| && k in s.cachedata[j]) {
      var f :| f in s.files && InFile(s, s.files[f], j, k);
      if a.Write? {
        assert SaverInv(s, a.c);
      }
      if !(a.MFile? && f == s.merger.todo[0]) {
        assert f in Next(s, a).files && InFile(Next(s, a), Next(s, a).files[f], j, k);
      }
    }
  }

  /** A passed index stays passed while the cache is not being merged. */
  lemma PassedStep(s: State, a: Act, c: nat, i: nat)
    requires Inv(s) && Enabled(s, a) && s.merger.Idle? && c in s.savers && Passed(s, c, i)
    ensures Passed(Next(s, a), c, i)
  {
    var t := Next(s, a);
    if i !in s.files {
      var d :| d in s.savers && d != c && HoldsIndex(s.savers[d].pc, i);
      assert SaverInv(s, d);
      if i !in t.files {
        assert HoldsIndex(t.savers[d].pc, i);
      }
    }
  }

  lemma SaverInvStep(s: State, a: Act, c: nat)
    requires Inv(s) && Enabled(s, a) && c in Next(s, a).savers
    ensures SaverInv(Next(s, a), c)
  {
    var t := Next(s, a);
    if c in s.savers {
      assert SaverInv(s, c);
      var sv, sv' := s.savers[c], t.savers[c];
      if HasWritten(sv'.pc) {
        forall j, k | 0 <= j < s.width && k in sv.extras[j]
          ensures Kept(t, j, k)
        {
          if HasWritten(sv.pc) {
            KeptStep(s, a, j, k);
          } else {
            assert InFile(t, t.files[sv.pc.i], j, k);
          }
        }
      }
      if sv'.pc.Searching? || sv'.pc.Holding? || sv'.pc.Writing? {
        SearchStep(s, a, c);
      }
      WritingStep(s, a, c);
    }
  }

  lemma WritingStep(s: State, a: Act, c: nat)
    requires Inv(s) && Enabled(s, a) && c in s.savers
    ensures var t := Next(s, a);
            && (t.savers[c].pc.Writing? ==> t.savers[c].pc.i !in t.files)
            && (t.savers[c].pc.Written? ==> t.savers[c].pc.i in t.files)
            && (!t.merger.Idle? ==> !HoldsShared(t.savers[c].pc))
  {
    assert SaverInv(s, c);
    if a.Write? && a.c != c && s.savers[c].pc.Writing? {
      assert HoldsIndex(s.savers[c].pc, s.savers[c].pc.i);
      assert HoldsIndex(s.savers[a.c].pc, s.savers[a.c].pc.i);
      assert s.savers[a.c].pc.i != s.savers[c].pc.i;
    }
  }

  lemma SearchStep(s: State, a: Act, c: nat)
    requires Inv(s) && Enabled(s, a) && c in s.savers
    requires UnderWay(Next(s, a).savers[c].pc)
    ensures var t := Next(s, a); var sv := t.savers[c];
            sv.pid <= sv.pc.i && forall i | sv.pid <= i < sv.pc.i :: Passed(t, c, i)
  {
    SearchMoves(s, a, c);
    assert SaverInv(s, c);
    var t := Next(s, a);
    if !s.savers[c].pc.Start? {
      forall i | s.savers[c].pid <= i < t.savers[c].pc.i ensures Passed(t, c, i) {
        PassedStep(s, a, c, i);
      }
    }
  }

  /** A search begins at its process id, and goes on by one from an index that is taken. */
  lemma SearchMoves(s: State, a: Act, c: nat)
    requires Inv(s) && Enabled(s, a) && c in s.savers && UnderWay(Next(s, a).savers[c].pc)
    ensures var sv, sv' := s.savers[c], Next(s, a).savers[c];
            && sv'.pid == sv.pid
            && if sv.pc.Start? then sv'.pc.i == sv.pid
               else
                 && s.merger.Idle? && UnderWay(sv.pc)
                 && (sv'.pc.i == sv.pc.i || (sv'.pc.i == sv.pc.i + 1 && Passed(s, c, sv.pc.i)))
  {
    assert SaverInv(s, c);
    if UnderWay(s.savers[c].pc) {
      assert HoldsShared(s.savers[c].pc);
    }
  }

  lemma InvStep(s: State, a: Act)
    requires Inv(s) && Enabled(s, a)
    ensures Inv(Next(s, a))
  {
    MergerInvStep(s, a);
    LocksStep(s, a);
    forall c | c in Next(s, a).savers
      ensures SaverInv(Next(s, a), c)
    {
      SaverInvStep(s, a, c);
    }
  }

  // ---- Whole runs ----

  /** The states and steps of an interleaving of savers and the merger. */
  ghost predicate Execution(ss: seq<State>, acts: seq<Act>) {
    && |ss| == |acts| + 1 && Initial(ss[0])
    && forall n | 0 <= n < |acts| :: Enabled(ss[n], acts[n]) && ss[n + 1] == Next(ss[n], acts[n])
  }

  lemma {:induction false} ExecutionInv(ss: seq<State>, acts: seq<Act>, n: nat)
    requires Execution(ss, acts) && n < |ss|
    ensures Inv(ss[n]) && ss[n].width == ss[0].width
  {
    if n == 0 {
      InitialInv(ss[0]);
    } else {
      ExecutionInv(ss, acts, n - 1);
      InvStep(ss[n - 1], acts[n - 1]);
    }
  }

  /** The merger is at the file `f`. */
  ghost predicate Takes(s: State, a: Act, f: nat) {
    a.MFile? && Enabled(s, a) && s.merger.todo[0] == f
  }

  /** A saver writes to an index without a file, and no other saver is at this index. */
  lemma NoOverwrite(ss: seq<State>, acts: seq<Act>, n: nat)
    requires Execution(ss, acts) && n < |acts| && acts[n].Write?
    ensures var i := ss[n].savers[acts[n].c].pc.i;
            && i !in ss[n].files
            && ss[n + 1].files[i] == Extras(ss[n].savers[acts[n].c].extras, ss[n].version)
            && forall d | d in ss[n].savers && d != acts[n].c :: !HoldsIndex(ss[n].savers[d].pc, i)
  {
    ExecutionInv(ss, acts, n);
    assert SaverInv(ss[n], acts[n].c);
    assert HoldsIndex(ss[n].savers[acts[n].c].pc, ss[n].savers[acts[n].c].pc.i);
  }

  lemma FileStep(s: State, a: Act, i: nat)
    requires Inv(s) && Enabled(s, a) && i in s.files && !Takes(s, a, i)
    ensures i in Next(s, a).files && Next(s, a).files[i] == s.files[i]
  {
    if a.Write? {
      assert SaverInv(s, a.c);
    }
  }

  /** A file stays as it was written until the merger takes it. */
  lemma {:induction false} FileStays(ss: seq<State>, acts: seq<Act>, n: nat, m: nat, i: nat)
    requires Execution(ss, acts) && n <= m < |ss| && i in ss[n].files
    requires forall k | n <= k < m :: !Takes(ss[k], acts[k], i)
    ensures i in ss[m].files && ss[m].files[i] == ss[n].files[i]
    decreases m - n
  {
    if n < m {
      FileStays(ss, acts, n, m - 1, i);
      ExecutionInv(ss, acts, m - 1);
      FileStep(ss[m - 1], acts[m - 1], i);
    }
  }

  lemma StoredStep(s: State, a: Act)
    requires Inv(s) && Enabled(s, a)
    ensures Extends(Loaded(s.width, s.stored), Loaded(s.width, Next(s, a).stored))
  {
  }

  lemma StillExtends(early: seq<Table>, s: State, a: Act)
    requires Inv(s) && Enabled(s, a) && Extends(early, Loaded(s.width, s.stored))
    ensures Extends(early, Loaded(s.width, Next(s, a).stored))
  {
    StoredStep(s, a);
    ExtendsTransitive(early, Loaded(s.width, s.stored), Loaded(s.width, Next(s, a).stored));
  }

  /** No entry of the stored table is ever lost or changed. */
  lemma {:induction false} StoredGrows(ss: seq<State>, acts: seq<Act>, n: nat, m: nat)
    requires Execution(ss, acts) && n <= m < |ss|
    ensures Extends(Loaded(ss[0].width, ss[n].stored), Loaded(ss[0].width, ss[m].stored))
    decreases m - n
  {
    if n < m {
      StoredGrows(ss, acts, n, m - 1);
      ExecutionInv(ss, acts, m - 1);
      StillExtends(Loaded(ss[0].width, ss[n].stored), ss[m - 1], acts[m - 1]);
    }
  }

  /** A finished merge has stored every key of every save that was completed before it. */
  lemma MergeStoresCompletedSaves(ss: seq<State>, acts: seq<Act>, n: nat, c: nat)
    requires Execution(ss, acts) && n < |acts| && acts[n].MStore?
    requires c in ss[n].savers && HasWritten(ss[n].savers[c].pc)
    ensures Covers(ss[n].savers[c].extras, Loaded(ss[0].width, ss[n + 1].stored))
  {
    ExecutionInv(ss, acts, n);
    assert SaverInv(ss[n], c);
    assert ss[n].files.Keys == {};
    forall j, k | 0 <= j < ss[n].width && k in ss[n].savers[c].extras[j]
      ensures k in ss[n].cachedata[j]
    {
      assert Kept(ss[n], j, k);
    }
  }

  /** A value that somebody has found out: stored at the start, left over in a file, or saved. */
  ghost predicate Known(s0: State, s: State, j: nat, k: Key, v: Val) {
    || (j < |Loaded(s0.width, s0.stored)| && k in Loaded(s0.width, s0.stored)[j] &&
        Loaded(s0.width, s0.stored)[j][k] == v)
    || (exists f | f in s0.files :: InFile(s0, s0.files[f], j, k) && s0.files[f].data[j][k] == v)
    || (exists c | c in s.savers ::
          j < |s.savers[c].extras| && k in s.savers[c].extras[j] && s.savers[c].extras[j][k] == v)
  }

  ghost predicate AllKnown(s0: State, s: State) {
    && s.width == s0.width && s.version == s0.version && |s.cachedata| == s.width
    && (forall j, k | 0 <= j < s.width && k in s.cachedata[j] :: Known(s0, s, j, k, s.cachedata[j][k]))
    && (forall f, j: nat, k | f in s.files && InFile(s, s.files[f], j, k) :: Known(s0, s, j, k, s.files[f].data[j][k]))
  }

  lemma KnownStep(s0: State, s: State, a: Act, j: nat, k: Key, v: Val)
    requires Enabled(s, a) && Known(s0, s, j, k, v)
    ensures Known(s0, Next(s, a), j, k, v)
  {
    if c :| c in s.savers && j < |s.savers[c].extras| && k in s.savers[c].extras[j] && s.savers[c].extras[j][k] == v {
      assert c in Next(s, a).savers && Next(s, a).savers[c].extras == s.savers[c].extras;
    }
  }

  lemma AllKnownStep(s0: State, s: State, a: Act)
    requires Inv(s) && Enabled(s, a) && AllKnown(s0, s)
    ensures AllKnown(s0, Next(s, a))
  {
    var t := Next(s, a);
    forall f, j: nat, k | f in t.files && InFile(t, t.files[f], j, k)
      ensures Known(s0, t, j, k, t.files[f].data[j][k])
    {
      if f in s.files && t.files[f] == s.files[f] {
        assert InFile(s, s.files[f], j, k);
        KnownStep(s0, s, a, j, k, t.files[f].data[j][k]);
      } else {
        assert a.Write? && a.c in t.savers;
      }
    }
    forall j, k | 0 <= j < t.width && k in t.cachedata[j]
      ensures Known(s0, t, j, k, t.cachedata[j][k])
    {
      if k in s.cachedata[j] {
        assert t.cachedata[j][k] == s.cachedata[j][k];
      } else {
        var f := s.merger.todo[0];
        MergeTablesMeaning(s.files[f].data, s.cachedata);
        assert InFile(s, s.files[f], j, k);
      }
      KnownStep(s0, s, a, j, k, t.cachedata[j][k]);
    }
  }

  lemma {:induction false} ExecutionKnown(ss: seq<State>, acts: seq<Act>, n: nat)
    requires Execution(ss, acts) && n < |ss|
    ensures AllKnown(ss[0], ss[n])
  {
    ExecutionInv(ss, acts, n);
    if n > 0 {
      ExecutionKnown(ss, acts, n - 1);
      ExecutionInv(ss, acts, n - 1);
      AllKnownStep(ss[0], ss[n - 1], acts[n - 1]);
    }
  }

  /** The stored table holds nothing that nobody has found out. */
  lemma StoredIsKnown(ss: seq<State>, acts: seq<Act>, n: nat, j: nat, k: Key)
    requires Execution(ss, acts) && n < |ss| && ss[n].stored.Some?
    requires j < |ss[n].stored.value| && k in ss[n].stored.value[j]
    ensures Known(ss[0], ss[n], j, k, ss[n].stored.value[j][k])
  {
    ExecutionInv(ss, acts, n);
    ExecutionKnown(ss, acts, n);
    assert k in ss[n].cachedata[j] && ss[n].cachedata[j][k] == ss[n].stored.value[j][k];
  }

  // ---- The search for an index is bounded ----

  /** Looking for an index, or about to write to it. */
  predicate UnderWay(pc: SaverPc) {
    pc.Searching? || pc.Holding? || pc.Writing?
  }

  ghost function IndexOf(pc: SaverPc): nat {
    match pc
    case Holding(i) => i
    case Writing(i) => i
    case Written(i) => i
    case _ => 0
  }

  ghost function HeldBy(s: State, cs: set<nat>): set<nat>
    requires cs <= s.savers.Keys
  {
    set c | c in cs :: IndexOf(s.savers[c].pc)
  }

  lemma {:induction false} HeldByBound(s: State, cs: set<nat>)
    requires cs <= s.savers.Keys
    ensures |HeldBy(s, cs)| <= |cs|
  {
    if cs != {} {
      var c :| c in cs;
      HeldByBound(s, cs - {c});
      assert HeldBy(s, cs) == HeldBy(s, cs - {c}) + {IndexOf(s.savers[c].pc)};
    }
  }

  lemma {:induction false} RangeBound(lo: nat, hi: nat, xs: set<nat>)
    requires lo <= hi && forall i | lo <= i < hi :: i in xs
    ensures hi - lo <= |xs|
    decreases hi
  {
    if lo < hi {
      RangeBound(lo, hi - 1, xs - {hi - 1});
    }
  }

  /** The calls that have written their file. */
  ghost function Writers(s: State): set<nat> {
    set c | c in s.savers && HasWritten(s.savers[c].pc)
  }

  lemma WritersStep(s: State, a: Act)
    requires Enabled(s, a)
    ensures Writers(Next(s, a)) == Writers(s) + if a.Write? then {a.c} else {}
    ensures a.Write? ==> a.c !in Writers(s)
  {
    var t := Next(s, a);
    forall c ensures c in Writers(t) <==> c in Writers(s) || (a.Write? && c == a.c) {
    }
  }

  lemma FilesStep(s: State, a: Act)
    requires Enabled(s, a)
    ensures |Next(s, a).files| <= |s.files| + if a.Write? then 1 else 0
  {
    var t := Next(s, a);
    if a.Write? {
      CountUpdate(s.files, s.savers[a.c].pc.i, Extras(s.savers[a.c].extras, s.version));
    } else if a.MFile? {
      CountRemoved(s.files, s.merger.todo[0]);
    }
  }

  lemma CountUpdate(files: map<nat, File>, i: nat, f: File)
    ensures |files[i := f]| <= |files| + 1
  {
    assert files[i := f].Keys == files.Keys + {i};
    assert |files.Keys + {i}| <= |files.Keys| + 1;
  }

  lemma CountRemoved(files: map<nat, File>, i: nat)
    ensures |files - {i}| <= |files|
  {
    assert (files - {i}).Keys == files.Keys - {i};
    Smaller(files.Keys - {i}, files.Keys);
  }

  /** There are at most the files of the beginning, and one for each call that has written. */
  lemma {:induction false} FilesBounded(ss: seq<State>, acts: seq<Act>, n: nat)
    requires Execution(ss, acts) && n < |ss|
    ensures |ss[n].files| <= |ss[0].files| + |Writers(ss[n])|
  {
    if n > 0 {
      FilesBounded(ss, acts, n - 1);
      FilesStep(ss[n - 1], acts[n - 1]);
      WritersStep(ss[n - 1], acts[n - 1]);
    }
  }

  /** The indexes that a search has passed belong to files, or to calls that have not written yet. */
  lemma PassedBound(s: State, c: nat)
    requires Inv(s) && c in s.savers && UnderWay(s.savers[c].pc)
    ensures s.savers[c].pc.i - s.savers[c].pid < |s.files| + |s.savers| - |Writers(s)|
  {
    var others := s.savers.Keys - Writers(s) - {c};
    var xs := s.files.Keys + HeldBy(s, others);
    forall i: nat | s.savers[c].pid <= i < s.savers[c].pc.i
      ensures i in xs
    {
      PassedHeld(s, c, i);
    }
    assert SaverInv(s, c);
    RangeBound(s.savers[c].pid, s.savers[c].pc.i, xs);
    HeldByBound(s, others);
    OthersCount(s.savers.Keys, Writers(s), c);
    assert |s.savers.Keys| == |s.savers| && |s.files.Keys| == |s.files|;
  }

  lemma PassedHeld(s: State, c: nat, i: nat)
    requires Inv(s) && c in s.savers && UnderWay(s.savers[c].pc)
    requires s.savers[c].pid <= i < s.savers[c].pc.i
    ensures i in s.files || i in HeldBy(s, s.savers.Keys - Writers(s) - {c})
  {
    assert SaverInv(s, c);
    assert Passed(s, c, i);
    if i !in s.files {
      var d :| d in s.savers && d != c && HoldsIndex(s.savers[d].pc, i);
      assert SaverInv(s, d);
    }
  }

  lemma OthersCount(all: set<nat>, some: set<nat>, c: nat)
    requires some <= all && c in all && c !in some
    ensures |all - some - {c}| == |all| - |some| - 1
  {
    assert |all - some| == |all| - |some|;
  }

  lemma {:induction false} SaversGrow(ss: seq<State>, acts: seq<Act>, n: nat, m: nat)
    requires Execution(ss, acts) && n <= m < |ss|
    ensures ss[n].savers.Keys <= ss[m].savers.Keys
    decreases m - n
  {
    if n < m {
      SaversGrow(ss, acts, n, m - 1);
    }
  }

  /** The files of the beginning and all calls that ever begin. */
  ghost function Crowd(ss: seq<State>): nat
    requires ss != []
  {
    |ss[0].files| + |ss[|ss| - 1].savers|
  }

  /**
   In no interleaving does a search go as far from its process id as there are files at the
   beginning and calls that ever begin.
   */
  lemma SearchBounded(ss: seq<State>, acts: seq<Act>, n: nat, c: nat)
    requires Execution(ss, acts) && n < |ss| && c in ss[n].savers && UnderWay(ss[n].savers[c].pc)
    ensures ss[n].savers[c].pc.i - ss[n].savers[c].pid < Crowd(ss)
  {
    ExecutionInv(ss, acts, n);
    FilesBounded(ss, acts, n);
    PassedBound(ss[n], c);
    SaversGrow(ss, acts, n, |ss| - 1);
    Smaller(ss[n].savers.Keys, ss[|ss| - 1].savers.Keys);
    assert |ss[n].savers| == |ss[n].savers.Keys| && |ss[|ss| - 1].savers| == |ss[|ss| - 1].savers.Keys|;
  }

  lemma Smaller(a: set<nat>, b: set<nat>)
    requires a <= b
    ensures |a| <= |b|
  {
    assert |b - a| == |b| - |a|;
  }

  predicate SearchAct(a: Act, c: nat) {
    a == Check(c) || (a.TryLock? && a.c == c)
  }

  /** How many of the first `n` steps are attempts on a lock, or looks for a file, of call `c`. */
  function Tries(acts: seq<Act>, n: nat, c: nat): nat
    requires n <= |acts|
  {
    if n == 0 then 0 else Tries(acts, n - 1, c) + if SearchAct(acts[n - 1], c) then 1 else 0
  }

  /** Two steps for each index passed, and at most two for the last one. */
  ghost predicate TriesFit(s: State, c: nat, tries: nat, bound: nat) {
    if c !in s.savers then tries == 0
    else
      match s.savers[c].pc
      case Start => tries == 0
      case Searching(i) => tries <= 2 * (i - s.savers[c].pid)
      case Holding(i) => tries <= 2 * (i - s.savers[c].pid) + 1
      case Writing(i) => tries <= 2 * (i - s.savers[c].pid) + 2
      case _ => tries <= 2 * bound
  }

  lemma TriesStep(s: State, a: Act, c: nat, tries: nat, bound: nat)
    requires Enabled(s, a) && TriesFit(s, c, tries, bound)
    requires c in s.savers && s.savers[c].pc.Writing? ==> s.savers[c].pc.i - s.savers[c].pid < bound
    ensures TriesFit(Next(s, a), c, tries + if SearchAct(a, c) then 1 else 0, bound)
  {
  }

  /** So each search ends: over a whole execution it takes at most so many steps, fixed by who takes part. */
  lemma {:induction false} SearchEnds(ss: seq<State>, acts: seq<Act>, n: nat, c: nat)
    requires Execution(ss, acts) && n <= |acts|
    ensures TriesFit(ss[n], c, Tries(acts, n, c), Crowd(ss)) && Tries(acts, n, c) <= 2 * Crowd(ss)
  {
    if n > 0 {
      SearchEnds(ss, acts, n - 1, c);
      var s := ss[n - 1];
      if c in s.savers && s.savers[c].pc.Writing? {
        SearchBounded(ss, acts, n - 1, c);
      }
      TriesStep(s, acts[n - 1], c, Tries(acts, n - 1, c), Crowd(ss));
    }
    if c in ss[n].savers && UnderWay(ss[n].savers[c].pc) {
      SearchBounded(ss, acts, n, c);
    }
  }

  // ---- A run from a save to the store ----

  ghost predicate Leads(s: State, a: Act, next: State) {
    Enabled(s, a) && Next(s, a) == next
  }

  lemma Go(ss0: seq<State>, acts0: seq<Act>, a: Act, next: State) returns (ss: seq<State>, acts: seq<Act>)
    requires Execution(ss0, acts0) && Leads(ss0[|acts0|], a, next)
    ensures Execution(ss, acts) && ss[|acts|] == next && ss[0] == ss0[0]
  {
    ss, acts := ss0 + [next], acts0 + [a];
  }

  ghost function WithSaver(s: State, pid: nat, extras: seq<Table>, pc: SaverPc): State {
    s.(savers := map[0 := Saver(pid, extras, pc)])
  }

  lemma Approaches(s: State, pid: nat, extras: seq<Table>)
    requires Initial(s) && s.files == map[] && |extras| == s.width && HasData(extras)
    ensures Leads(s, Begin(0, pid, extras), WithSaver(s, pid, extras, Start))
    ensures Leads(WithSaver(s, pid, extras, Start), LockShared(0), WithSaver(s, pid, extras, Searching(pid)))
  {
  }

  lemma FindsIndex(s: State, pid: nat, extras: seq<Table>)
    requires s.files == map[]
    ensures Leads(WithSaver(s, pid, extras, Searching(pid)), TryLock(0, false),
                WithSaver(s, pid, extras, Holding(pid)))
    ensures Leads(WithSaver(s, pid, extras, Holding(pid)), Check(0), WithSaver(s, pid, extras, Writing(pid)))
  {
    assert !LockedByOther(WithSaver(s, pid, extras, Searching(pid)), 0, pid);
  }

  lemma Leaves(s: State, pid: nat, extras: seq<Table>, file: map<nat, File>)
    requires s.files == map[] && s.released == {} && file == map[pid := Extras(extras, s.version)]
    ensures Leads(WithSaver(s, pid, extras, Writing(pid)), Write(0),
                WithSaver(s, pid, extras, Written(pid)).(files := file))
    ensures Leads(WithSaver(s, pid, extras, Written(pid)).(files := file), Unlock(0),
                WithSaver(s, pid, extras, Unlocking).(files := file, released := {pid}))
    ensures Leads(WithSaver(s, pid, extras, Unlocking).(files := file, released := {pid}), Release(0),
                WithSaver(s, pid, extras, SaverPc.Done).(files := file, released := {pid}))
  {
  }

  /** One call of `save_extras`, from its beginning to its end, in an empty directory. */
  lemma OneSave(s: State, pid: nat, extras: seq<Table>) returns (ss: seq<State>, acts: seq<Act>)
    requires Initial(s) && s.files == map[] && |extras| == s.width && HasData(extras)
    ensures Execution(ss, acts) && ss[0] == s
    ensures ss[|acts|] == WithSaver(s, pid, extras, SaverPc.Done)
                          .(files := map[pid := Extras(extras, s.version)], released := {pid})
  {
    var file := map[pid := Extras(extras, s.version)];
    Approaches(s, pid, extras);
    FindsIndex(s, pid, extras);
    Leaves(s, pid, extras, file);
    ss, acts := [s], [];
    ss, acts := Go(ss, acts, Begin(0, pid, extras), WithSaver(s, pid, extras, Start));
    ss, acts := Go(ss, acts, LockShared(0), WithSaver(s, pid, extras, Searching(pid)));
    ss, acts := Go(ss, acts, TryLock(0, false), WithSaver(s, pid, extras, Holding(pid)));
    ss, acts := Go(ss, acts, Check(0), WithSaver(s, pid, extras, Writing(pid)));
    ss, acts := Go(ss, acts, Write(0), WithSaver(s, pid, extras, Written(pid)).(files := file));
    ss, acts := Go(ss, acts, Unlock(0), WithSaver(s, pid, extras, Unlocking).(files := file, released := {pid}));
    ss, acts := Go(ss, acts, Release(0), WithSaver(s, pid, extras, SaverPc.Done).(files := file, released := {pid}));
  }

  lemma MergesOne(end: State, pid: nat, extras: seq<Table>, file: map<nat, File>, merged: seq<Table>)
    requires end.files == map[] && end.merger.Idle? && end.released == {} && |end.cachedata| == end.width == |extras|
    requires forall d | d in end.savers :: !HoldsShared(end.savers[d].pc)
    requires file == map[pid := Extras(extras, end.version)] && merged == MergeTables(extras, end.cachedata)
    ensures Leads(end.(files := file, released := {pid}), MLock,
                end.(files := file, released := {pid}, merger := Listing))
    ensures Leads(end.(files := file, released := {pid}, merger := Listing), MList([pid]),
                end.(files := file, released := {pid}, merger := Merging([pid], false)))
    ensures Leads(end.(files := file, released := {pid}, merger := Merging([pid], false)), MFile,
                end.(released := {pid}, merger := Merging([], true), cachedata := merged))
    ensures Leads(end.(released := {pid}, merger := Merging([], true), cachedata := merged), MStore,
                end.(cachedata := merged, stored := Some(merged)))
  {
    assert file - {pid} == map[] && [pid][1..] == [];
  }

  /** What one process saves can be merged and stored: such a run exists, and everything is at rest behind it. */
  lemma SaveThenMerge(s: State, pid: nat, extras: seq<Table>) returns (ss: seq<State>, acts: seq<Act>)
    requires Initial(s) && s.files == map[] && |extras| == s.width && HasData(extras)
    ensures Execution(ss, acts) && ss[0] == s
    ensures var merged := MergeTables(extras, s.cachedata);
            ss[|acts|] == WithSaver(s, pid, extras, SaverPc.Done).(cachedata := merged, stored := Some(merged))
  {
    var file, merged := map[pid := Extras(extras, s.version)], MergeTables(extras, s.cachedata);
    var end := WithSaver(s, pid, extras, SaverPc.Done);
    ss, acts := OneSave(s, pid, extras);
    MergesOne(end, pid, extras, file, merged);
    ss, acts := Go(ss, acts, MLock, end.(files := file, released := {pid}, merger := Listing));
    ss, acts := Go(ss, acts, MList([pid]), end.(files := file, released := {pid}, merger := Merging([pid], false)));
    ss, acts := Go(ss, acts, MFile, end.(released := {pid}, merger := Merging([], true), cachedata := merged));
    ss, acts := Go(ss, acts, MStore, end.(cachedata := merged, stored := Some(merged)));
  }
}
