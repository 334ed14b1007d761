/**
 The memoised validity check of BitBake's recipe cache, and the lookup that relies on it.
 */
module RecipeCache {
  import opened Wrappers
  import opened Text
  import opened VirtualNames

  /** One file of a checksum list with its recorded presence, `True`, `False` or other text. */
  datatype Checksum = Checksum(file: string, exist: string)

  /**
   A record of the cache.  Only a core record has the fields of the validity check; a skipped
   recipe has no checksums.
   */
  datatype Info =
    | Core(timestamp: nat, file_depends: seq<(string, nat)>, file_checksums: Option<seq<Checksum>>,
           appends: seq<string>, variants: seq<string>)
    | Extra(classname: string)

  type Depends = map<string, seq<Info>>

  /** The files as the check sees them; a missing file has time 0. */
  datatype Files = Files(mtime: map<string, nat>, existing: set<string>)

  function MTime(fs: Files, f: string): nat {
    if f in fs.mtime then fs.mtime[f] else 0
  }

  predicate ChecksumOk(fs: Files, c: Checksum) {
    !(c.exist == "True" && c.file !in fs.existing) && !(c.exist == "False" && c.file in fs.existing)
  }

  /** What the check finds in the record and the files, before it looks at the variants. */
  predicate RecordOk(fs: Files, info: Info, fn: string, appends: seq<string>)
    requires info.Core?
  {
    && MTime(fs, fn) != 0 && MTime(fs, fn) == info.timestamp
    && (forall i | 0 <= i < |info.file_depends| :: MTime(fs, info.file_depends[i].0) == info.file_depends[i].1)
    && (info.file_checksums.Some? ==>
          forall i | 0 <= i < |info.file_checksums.value| :: ChecksumOk(fs, info.file_checksums.value[i]))
    && appends == info.appends
  }

  /** File `f` has this time; a missing file has time 0. */
  predicate HasTime(fs: Files, f: string, t: nat) {
    if f in fs.mtime then fs.mtime[f] == t else t == 0
  }

  /** The recipe and every file it depends on have the recorded times. */
  ghost predicate TimesAgree(fs: Files, info: Info, fn: string)
    requires info.Core?
  {
    HasTime(fs, fn, info.timestamp) && forall dep | dep in info.file_depends :: HasTime(fs, dep.0, dep.1)
  }

  /** A checksum file has this recorded presence. */
  predicate Listed(info: Info, file: string, exist: string)
    requires info.Core?
  {
    info.file_checksums.Some? && Checksum(file, exist) in info.file_checksums.value
  }

  /** The files recorded as present are there, those recorded as absent are not. */
  ghost predicate PresenceAgrees(fs: Files, info: Info)
    requires info.Core?
  {
    && (forall f | Listed(info, f, "True") :: f in fs.existing)
    && (forall f | Listed(info, f, "False") :: f !in fs.existing)
  }

  /** The check of a record, in terms of the files: times, presence and appends. */
  lemma RecordMeaning(fs: Files, info: Info, fn: string, appends: seq<string>)
    requires info.Core?
    ensures RecordOk(fs, info, fn, appends) <==>
            info.timestamp != 0 && TimesAgree(fs, info, fn) && PresenceAgrees(fs, info) && info.appends == appends
  {
    if RecordOk(fs, info, fn, appends) {
      forall dep | dep in info.file_depends ensures HasTime(fs, dep.0, dep.1) {
        var i :| 0 <= i < |info.file_depends| && info.file_depends[i] == dep;
      }
      forall f, exist | Listed(info, f, exist) ensures ChecksumOk(fs, Checksum(f, exist)) {
        var i :| 0 <= i < |info.file_checksums.value| && info.file_checksums.value[i] == Checksum(f, exist);
      }
    }
    if TimesAgree(fs, info, fn) && PresenceAgrees(fs, info) {
      forall i | 0 <= i < |info.file_depends| ensures MTime(fs, info.file_depends[i].0) == info.file_depends[i].1 {
        assert info.file_depends[i] in info.file_depends;
      }
      if info.file_checksums.Some? {
        forall i | 0 <= i < |info.file_checksums.value| ensures ChecksumOk(fs, info.file_checksums.value[i]) {
          var c := info.file_checksums.value[i];
          assert Listed(info, c.file, c.exist);
        }
      }
    }
  }

  /** Every entry is non-empty and starts with its core record. */
  predicate WellFormed(d: Depends) {
    forall n | n in d :: d[n] != [] && d[n][0].Core?
  }

  predicate VariantsOk(d: Depends, fn: string, variants: seq<string>, classes: nat) {
    forall i | 0 <= i < |variants| ::
      Variant2Virtual(fn, variants[i]) in d && |d[Variant2Virtual(fn, variants[i])]| == classes
  }

  /** The full check of a recipe against a cache. */
  predicate FullCheck(fs: Files, d: Depends, classes: nat, fn: string, appends: seq<string>)
    requires WellFormed(d)
  {
    fn in d && RecordOk(fs, d[fn][0], fn, appends) && VariantsOk(d, fn, d[fn][0].variants, classes)
  }

  /** The names of the variants of a recipe. */
  function VariantNames(fn: string, variants: seq<string>): set<string> {
    set i | 0 <= i < |variants| :: Variant2Virtual(fn, variants[i])
  }

  datatype State = State(depends_cache: Depends, clean: set<string>, checked: set<string>)

  function RemoveStep(s: State, fn: string): State {
    s.(depends_cache := s.depends_cache - {fn}, clean := s.clean - {fn})
  }

  function UpdateStep(s: State, fs: Files, classes: nat, fn: string, appends: seq<string>): State
    requires WellFormed(s.depends_cache)
  {
    var s1 := s.(checked := s.checked + {fn});
    if fn !in s.depends_cache then s1
    else if !RecordOk(fs, s.depends_cache[fn][0], fn, appends) then RemoveStep(s1, fn)
    else
      var variants := s.depends_cache[fn][0].variants;
      if VariantsOk(s.depends_cache, fn, variants, classes)
          then s1.(clean := s.clean + VariantNames(fn, variants) + {fn})
      else s1.(clean := s.clean - VariantNames(fn, variants) - {fn})
  }

  function ValidStep(s: State, fs: Files, classes: nat, fn: string, appends: seq<string>): (State, bool)
    requires WellFormed(s.depends_cache)
  {
    var s' := if fn in s.checked then s else UpdateStep(s, fs, classes, fn, appends);
    (s', fn in s'.clean)
  }

  /** The records of every variant, or `None` where a lookup raises KeyError. */
  function Load(d: Depends, fn: string, variants: seq<string>): Option<seq<(string, seq<Info>)>> {
    if variants == [] then Some([])
    else
      var virtualfn := Variant2Virtual(fn, variants[0]);
      if virtualfn !in d then None
      else
        match Load(d, fn, variants[1..])
        case None => None
        case Some(rest) => Some([(virtualfn, d[virtualfn])] + rest)
  }

  class Cache {
    const files: Files
    const classes: nat
    var depends_cache: Depends
    var clean: set<string>
    var checked: set<string>

    ghost function Now(): State
      reads this
    {
      State(depends_cache, clean, checked)
    }

    constructor (files: Files, classes: nat, d: Depends)
      ensures this.files == files && this.classes == classes && Now() == State(d, {}, {})
    {
      this.files, this.classes, depends_cache, clean, checked := files, classes, d, {}, {};
    }

    method Remove(fn: string)
      modifies this
      ensures Now() == RemoveStep(old(Now()), fn)
    {
      if fn in depends_cache {
        depends_cache := depends_cache - {fn};
      }
      assert fn !in old(depends_cache) ==> depends_cache - {fn} == depends_cache;
      if fn in clean {
        clean := clean - {fn};
      }
    }

    /** The loops over dependencies and checksums and the comparisons around them. */
    method CheckRecord(fn: string, appends: seq<string>) returns (ok: bool)
      requires fn in depends_cache && depends_cache[fn] != [] && depends_cache[fn][0].Core?
      ensures ok <==> RecordOk(files, depends_cache[fn][0], fn, appends)
      ensures var info := depends_cache[fn][0];
              ok <==> info.timestamp != 0 && TimesAgree(files, info, fn) && PresenceAgrees(files, info)
                      && info.appends == appends
    {
      var info := depends_cache[fn][0];
      RecordMeaning(files, info, fn, appends);
      var mtime := MTime(files, fn);
      if mtime == 0 || mtime != info.timestamp {
        return false;
      }
      for i := 0 to |info.file_depends|
        invariant forall j | 0 <= j < i :: MTime(files, info.file_depends[j].0) == info.file_depends[j].1
      {
        var (f, old_mtime) := info.file_depends[i];
        var fmtime := MTime(files, f);
        if old_mtime != 0 && fmtime == 0 {
          return false;
        }
        if fmtime != old_mtime {
          return false;
        }
      }
      if info.file_checksums.Some? {
        for i := 0 to |info.file_checksums.value|
          invariant forall j | 0 <= j < i :: ChecksumOk(files, info.file_checksums.value[j])
        {
          var Checksum(f, exist) := info.file_checksums.value[i];
          if (exist == "True" && f !in files.existing) || (exist == "False" && f in files.existing) {
            assert !ChecksumOk(files, info.file_checksums.value[i]);
            return false;
          }
        }
      }
      ok := appends == info.appends;
    }

    method CacheValidUpdate(fn: string, appends: seq<string>)
      requires WellFormed(depends_cache)
      modifies this
      ensures Now() == UpdateStep(old(Now()), files, classes, fn, appends)
    {
      checked := checked + {fn};
      if fn !in depends_cache {
        return;
      }
      var ok := CheckRecord(fn, appends);
      if !ok {
        Remove(fn);
        return;
      }
      var variants := depends_cache[fn][0].variants;
      var invalid := MarkVariants(fn, variants);
      if invalid {
        UnmarkVariants(fn, variants);
        if fn in clean {
          clean := clean - {fn};
        }
        assert clean == old(clean) - VariantNames(fn, variants) - {fn};
        return;
      }
      clean := clean + {fn};
    }

    /** The first loop over the variants. */
    method MarkVariants(fn: string, variants: seq<string>) returns (invalid: bool)
      modifies this`clean
      ensures clean == old(clean) + VariantNames(fn, variants)
      ensures invalid <==> !VariantsOk(depends_cache, fn, variants, classes)
    {
      invalid := false;
      for i := 0 to |variants|
        invariant clean == old(clean) + VariantNames(fn, variants[..i])
        invariant invalid <==> !VariantsOk(depends_cache, fn, variants[..i], classes)
      {
        var virtualfn := Variant2Virtual(fn, variants[i]);
        ExtendVariants(depends_cache, fn, variants, i, classes);
        clean := clean + {virtualfn};
        if virtualfn !in depends_cache {
          invalid := true;
        } else if |depends_cache[virtualfn]| != classes {
          invalid := true;
        }
      }
      assert variants[..|variants|] == variants;
    }

    /** The second loop, when a variant is missing. */
    method UnmarkVariants(fn: string, variants: seq<string>)
      modifies this`clean
      ensures clean == old(clean) - VariantNames(fn, variants)
    {
      for i := 0 to |variants|
        invariant clean == old(clean) - VariantNames(fn, variants[..i])
      {
        var virtualfn := Variant2Virtual(fn, variants[i]);
        ExtendVariants(depends_cache, fn, variants, i, classes);
        if virtualfn in clean {
          clean := clean - {virtualfn};
        }
      }
      assert variants[..|variants|] == variants;
    }

    method CacheValid(fn: string, appends: seq<string>) returns (valid: bool)
      requires WellFormed(depends_cache)
      modifies this
      ensures (Now(), valid) == ValidStep(old(Now()), files, classes, fn, appends)
    {
      if fn !in checked {
        CacheValidUpdate(fn, appends);
      }
      valid := fn in clean;
    }

    method LoadCached(fn: string) returns (infos: Option<seq<(string, seq<Info>)>>)
      requires WellFormed(depends_cache)
      ensures infos == if fn in depends_cache then Load(depends_cache, fn, depends_cache[fn][0].variants) else None
    {
      if fn !in depends_cache {
        return None;
      }
      var variants := depends_cache[fn][0].variants;
      var found: seq<(string, seq<Info>)> := [];
      assert variants[0..] == variants;
      assert Load(depends_cache, fn, variants).Some? ==>
          found + Load(depends_cache, fn, variants).value == Load(depends_cache, fn, variants).value;
      for i := 0 to |variants|
        invariant Load(depends_cache, fn, variants) ==
                  match Load(depends_cache, fn, variants[i..])
                  { case None => None case Some(rest) => Some(found + rest) }
      {
        var virtualfn := Variant2Virtual(fn, variants[i]);
        assert variants[i..][0] == variants[i] && variants[i..][1..] == variants[i + 1..];
        if virtualfn !in depends_cache {
          return None;
        }
        ghost var rest := Load(depends_cache, fn, variants[i + 1..]);
        assert rest.Some? ==> found + ([(virtualfn, depends_cache[virtualfn])] + rest.value) ==
                              found + [(virtualfn, depends_cache[virtualfn])] + rest.value;
        found := found + [(virtualfn, depends_cache[virtualfn])];
      }
      assert variants[|variants|..] == [] && found + [] == found;
      infos := Some(found);
    }
  }

  lemma ExtendVariants(d: Depends, fn: string, variants: seq<string>, i: nat, classes: nat)
    requires i < |variants|
    ensures var virtualfn := Variant2Virtual(fn, variants[i]);
            && VariantNames(fn, variants[..i + 1]) == VariantNames(fn, variants[..i]) + {virtualfn}
            && (VariantsOk(d, fn, variants[..i + 1], classes) <==>
                VariantsOk(d, fn, variants[..i], classes) && virtualfn in d && |d[virtualfn]| == classes)
  {
    assert variants[..i + 1] == variants[..i] + [variants[i]];
  }

  // ---- Runs of checks and removals ----

  datatype Op = Check(fn: string, appends: seq<string>) | Remove(fn: string)

  /** The fixed surroundings of a run: the files, and the cache as it was loaded. */
  datatype World = World(files: Files, initial: Depends, classes: nat)

  function Step(w: World, s: State, op: Op): State
    requires WellFormed(s.depends_cache)
  {
    match op
    case Check(fn, appends) => ValidStep(s, w.files, w.classes, fn, appends).0
    case Remove(fn) => RemoveStep(s, fn)
  }

  lemma StepWellFormed(w: World, s: State, op: Op)
    requires WellFormed(s.depends_cache)
    ensures WellFormed(Step(w, s, op).depends_cache)
  {
  }

  function RunFrom(w: World, s: State, ops: seq<Op>): (s': State)
    requires WellFormed(s.depends_cache)
    ensures WellFormed(s'.depends_cache)
    decreases |ops|
  {
    if ops == [] then s
    else
      StepWellFormed(w, s, ops[0]);
      RunFrom(w, Step(w, s, ops[0]), ops[1..])
  }

  /** Recipe names are free of colons. */
  predicate RecipeOps(ops: seq<Op>) {
    forall i | 0 <= i < |ops| :: COLON !in ops[i].fn
  }

  /**
   What has happened to one recipe: whether it was checked, whether the first check was
   passed, and whether it was removed by a caller.
   */
  datatype Track = Track(checked: bool, ok: bool, removed: bool)

  function Follow(w: World, t: Track, fn: string, op: Op): Track
    requires WellFormed(w.initial)
  {
    if op.fn != fn then t
    else
      match op
      case Check(_, appends) =>
        if t.checked then t
        else Track(true, !t.removed && FullCheck(w.files, w.initial, w.classes, fn, appends), t.removed)
      case Remove(_) => t.(removed := true)
  }

  function TrackFrom(w: World, t: Track, fn: string, ops: seq<Op>): Track
    requires WellFormed(w.initial)
    decreases |ops|
  {
    if ops == [] then t else TrackFrom(w, Follow(w, t, fn, ops[0]), fn, ops[1..])
  }

  function NamesOf(w: World, fn: string): set<string>
    requires WellFormed(w.initial)
  {
    if fn in w.initial then VariantNames(fn, w.initial[fn][0].variants) else {}
  }

  /** Only recipe names ever leave the cache. */
  predicate CacheInv(w: World, d: Depends) {
    && (forall n | n in d :: n in w.initial && d[n] == w.initial[n])
    && (forall n | n in w.initial && COLON in n :: n in d)
  }

  /** The state of a recipe is a function of what has happened to it alone. */
  predicate RecipeInv(w: World, s: State, fn: string, t: Track)
    requires WellFormed(w.initial)
  {
    && (fn in s.checked <==> t.checked)
    && (t.checked && t.ok ==>
          && (forall m | m in NamesOf(w, fn) && m != fn :: m in s.clean)
          && (fn in s.clean <==> !t.removed)
          && (!t.removed ==> fn in s.depends_cache)
          && fn in w.initial && VariantsOk(w.initial, fn, w.initial[fn][0].variants, w.classes))
    && (!(t.checked && t.ok) ==> s.clean !! NamesOf(w, fn) + {fn})
    && (!t.checked ==> (fn in s.depends_cache <==> fn in w.initial && !t.removed))
  }

  lemma NamesDisjoint(fn: string, vs: seq<string>, other: string, n: string)
    requires COLON !in fn && COLON !in other && fn != other
    requires n in VariantNames(fn, vs) || n == fn
    ensures n != other && (forall ws :: n !in VariantNames(other, ws))
  {
    if n in VariantNames(fn, vs) {
      var i :| 0 <= i < |vs| && n == Variant2Virtual(fn, vs[i]);
      VariantEndsInRecipe(fn, vs[i]);
    } else {
      VariantEndsInRecipe(fn, "");
    }
    VariantEndsInRecipe(other, "");
    forall ws | n in VariantNames(other, ws)
      ensures false
    {
      var j :| 0 <= j < |ws| && n == Variant2Virtual(other, ws[j]);
      VariantEndsInRecipe(other, ws[j]);
    }
  }

  lemma CacheInvStep(w: World, s: State, op: Op)
    requires CacheInv(w, s.depends_cache) && WellFormed(w.initial) && COLON !in op.fn
    ensures WellFormed(s.depends_cache) && CacheInv(w, Step(w, s, op).depends_cache)
  {
  }

  /** The variants of a recipe other than itself cannot have been removed. */
  lemma VariantsOkCurrent(w: World, d: Depends, fn: string)
    requires CacheInv(w, d) && WellFormed(w.initial) && COLON !in fn && fn in d
    ensures VariantsOk(d, fn, w.initial[fn][0].variants, w.classes) <==>
            VariantsOk(w.initial, fn, w.initial[fn][0].variants, w.classes)
  {
    var vs := w.initial[fn][0].variants;
    forall i | 0 <= i < |vs|
      ensures Variant2Virtual(fn, vs[i]) in d <==> Variant2Virtual(fn, vs[i]) in w.initial
    {
      VariantEndsInRecipe(fn, vs[i]);
    }
  }

  lemma OwnStep(w: World, s: State, op: Op, t: Track)
    requires WellFormed(w.initial) && CacheInv(w, s.depends_cache) && COLON !in op.fn
    requires RecipeInv(w, s, op.fn, t)
    ensures WellFormed(s.depends_cache) && RecipeInv(w, Step(w, s, op), op.fn, Follow(w, t, op.fn, op))
  {
    if op.Check? && op.fn in s.depends_cache {
      VariantsOkCurrent(w, s.depends_cache, op.fn);
    }
  }

  lemma OtherStep(w: World, s: State, op: Op, fn: string, t: Track)
    requires WellFormed(w.initial) && CacheInv(w, s.depends_cache) && COLON !in op.fn && COLON !in fn && fn != op.fn
    requires RecipeInv(w, s, fn, t)
    ensures WellFormed(s.depends_cache) && RecipeInv(w, Step(w, s, op), fn, t)
  {
    var s' := Step(w, s, op);
    var vs := if fn in w.initial then w.initial[fn][0].variants else [];
    forall n | n in NamesOf(w, fn) + {fn}
      ensures n in s'.clean <==> n in s.clean
    {
      NamesDisjoint(fn, vs, op.fn, n);
    }
  }

  lemma {:induction false} RunInv(w: World, s: State, ops: seq<Op>, fn: string, t: Track)
    requires WellFormed(w.initial) && CacheInv(w, s.depends_cache) && RecipeOps(ops) && COLON !in fn
    requires RecipeInv(w, s, fn, t)
    ensures WellFormed(s.depends_cache)
    ensures CacheInv(w, RunFrom(w, s, ops).depends_cache)
    ensures RecipeInv(w, RunFrom(w, s, ops), fn, TrackFrom(w, t, fn, ops))
    decreases |ops|
  {
    if ops != [] {
      CacheInvStep(w, s, ops[0]);
      if ops[0].fn == fn {
        OwnStep(w, s, ops[0], t);
      } else {
        OtherStep(w, s, ops[0], fn, t);
      }
      RunInv(w, Step(w, s, ops[0]), ops[1..], fn, Follow(w, t, fn, ops[0]));
    }
  }

  const UNTOUCHED := Track(false, false, false)

  function Run(w: World, ops: seq<Op>): (s: State)
    requires WellFormed(w.initial)
    ensures WellFormed(s.depends_cache)
  {
    RunFrom(w, State(w.initial, {}, {}), ops)
  }

  function TrackOf(w: World, fn: string, ops: seq<Op>): Track
    requires WellFormed(w.initial)
  {
    TrackFrom(w, UNTOUCHED, fn, ops)
  }

  lemma RunInvariant(w: World, ops: seq<Op>, fn: string)
    requires WellFormed(w.initial) && RecipeOps(ops) && COLON !in fn
    ensures CacheInv(w, Run(w, ops).depends_cache) && RecipeInv(w, Run(w, ops), fn, TrackOf(w, fn, ops))
  {
    RunInv(w, State(w.initial, {}, {}), ops, fn, UNTOUCHED);
  }

  /** Whether and how a recipe was first checked, and whether it was removed. */
  predicate FirstChecked(ops: seq<Op>, fn: string, i: nat) {
    i < |ops| && ops[i].Check? && ops[i].fn == fn && forall j | 0 <= j < i :: !(ops[j].Check? && ops[j].fn == fn)
  }

  predicate RemovedIn(ops: seq<Op>, fn: string) {
    exists j | 0 <= j < |ops| :: ops[j] == Op.Remove(fn)
  }

  lemma {:induction false} TrackMeaning(w: World, t: Track, fn: string, ops: seq<Op>)
    requires WellFormed(w.initial)
    ensures var t' := TrackFrom(w, t, fn, ops);
            && (t'.removed <==> t.removed || RemovedIn(ops, fn))
            && (t.checked ==> t'.checked && t'.ok == t.ok)
            && (!t.checked && !t'.removed ==> forall i: nat | FirstChecked(ops, fn, i) ::
                  t'.checked && t'.ok == FullCheck(w.files, w.initial, w.classes, fn, ops[i].appends))
    decreases |ops|
  {
    if ops != [] {
      var t1 := Follow(w, t, fn, ops[0]);
      TrackMeaning(w, t1, fn, ops[1..]);
      assert RemovedIn(ops, fn) <==> ops[0] == Op.Remove(fn) || RemovedIn(ops[1..], fn) by {
        if RemovedIn(ops[1..], fn) {
          var j :| 0 <= j < |ops[1..]| && ops[1..][j] == Op.Remove(fn);
          assert ops[j + 1] == Op.Remove(fn);
        }
        if RemovedIn(ops, fn) && ops[0] != Op.Remove(fn) {
          var j :| 0 <= j < |ops| && ops[j] == Op.Remove(fn);
          assert ops[1..][j - 1] == Op.Remove(fn);
        }
      }
      forall i: nat | FirstChecked(ops, fn, i) && i > 0
        ensures FirstChecked(ops[1..], fn, i - 1) && ops[1..][i - 1] == ops[i]
      {
        assert forall j | 0 <= j < |ops| - 1 :: ops[1..][j] == ops[j + 1];
      }
      if !t.checked && !TrackFrom(w, t, fn, ops).removed && ops[0].Check? && ops[0].fn == fn {
        assert forall i: nat | FirstChecked(ops, fn, i) :: i == 0;
      }
    }
  }

  /**
   Whatever the order of checks and removals: the answer for a recipe that no caller removed
   is that of the full check against the cache as it was loaded, with the appends of its
   first check; for a removed recipe it is no.
   */
  lemma AnswersAreFullChecks(w: World, ops: seq<Op>, fn: string, appends: seq<string>, i: nat)
    requires WellFormed(w.initial) && RecipeOps(ops) && COLON !in fn
    requires FirstChecked(ops + [Check(fn, appends)], fn, i)
    ensures ValidStep(Run(w, ops), w.files, w.classes, fn, appends).1 <==>
            !RemovedIn(ops, fn)
            && FullCheck(w.files, w.initial, w.classes, fn, (ops + [Check(fn, appends)])[i].appends)
  {
    var s, t := Run(w, ops), TrackOf(w, fn, ops);
    RunInvariant(w, ops, fn);
    TrackMeaning(w, UNTOUCHED, fn, ops);
    var op := Check(fn, appends);
    OwnStep(w, s, op, t);
    if i < |ops| {
      assert FirstChecked(ops, fn, i) by {
        assert forall j | 0 <= j < |ops| :: (ops + [op])[j] == ops[j];
      }
    } else {
      NotChecked(w, UNTOUCHED, fn, ops, op);
    }
  }

  /** A recipe is first checked with these files. */
  function FirstAnswer(w: World, ops: seq<Op>, fn: string, appends: seq<string>): bool
    requires WellFormed(w.initial)
  {
    ValidStep(Run(w, ops), w.files, w.classes, fn, appends).1
  }

  /**
   The first check of a recipe says yes exactly if nobody removed it, the times of the recipe and of its dependencies
   and the presence of its checksum files are as recorded, the appends are the recorded ones, and every variant has a
   record of each class.
   */
  lemma FirstAnswerMeaning(w: World, ops: seq<Op>, fn: string, appends: seq<string>)
    requires WellFormed(w.initial) && RecipeOps(ops) && COLON !in fn
    requires forall j | 0 <= j < |ops| :: !(ops[j].Check? && ops[j].fn == fn)
    ensures FirstAnswer(w, ops, fn, appends) <==>
            && Op.Remove(fn) !in ops && fn in w.initial
            && var info := w.initial[fn][0];
            && info.timestamp != 0 && TimesAgree(w.files, info, fn) && PresenceAgrees(w.files, info)
            && info.appends == appends
            && forall v | v in info.variants ::
                 Variant2Virtual(fn, v) in w.initial && |w.initial[Variant2Virtual(fn, v)]| == w.classes
  {
    assert FirstChecked(ops + [Check(fn, appends)], fn, |ops|);
    AnswersAreFullChecks(w, ops, fn, appends, |ops|);
    if fn in w.initial {
      RecordMeaning(w.files, w.initial[fn][0], fn, appends);
      VariantsPresent(w.initial, fn, w.initial[fn][0].variants, w.classes);
    }
  }

  lemma VariantsPresent(d: Depends, fn: string, variants: seq<string>, classes: nat)
    ensures VariantsOk(d, fn, variants, classes) <==>
            forall v | v in variants :: Variant2Virtual(fn, v) in d && |d[Variant2Virtual(fn, v)]| == classes
  {
    if VariantsOk(d, fn, variants, classes) {
      forall v | v in variants ensures Variant2Virtual(fn, v) in d && |d[Variant2Virtual(fn, v)]| == classes {
        var i :| 0 <= i < |variants| && variants[i] == v;
      }
    }
  }

  /** The files the check of a recipe looks at. */
  ghost predicate TimeMatters(info: Info, fn: string, f: string)
    requires info.Core?
  {
    f == fn || exists t :: (f, t) in info.file_depends
  }

  ghost predicate PresenceMatters(info: Info, f: string)
    requires info.Core?
  {
    Listed(info, f, "True") || Listed(info, f, "False")
  }

  /** The files between two sessions changed in nothing that matters to the recipe. */
  ghost predicate AlikeFor(info: Info, fn: string, a: Files, b: Files)
    requires info.Core?
  {
    && (forall f, t | TimeMatters(info, fn, f) :: HasTime(a, f, t) <==> HasTime(b, f, t))
    && (forall f | PresenceMatters(info, f) :: f in a.existing <==> f in b.existing)
  }

  /**
   After a first yes: in a session with other files and other appends, the first answer is yes again exactly if the
   appends are the same and every file that matters is as it was; one change is enough for a no.
   */
  lemma ChangesAreSeen(w: World, ops: seq<Op>, files': Files, ops': seq<Op>, fn: string, appends: seq<string>,
                       appends': seq<string>)
    requires WellFormed(w.initial) && RecipeOps(ops) && RecipeOps(ops') && COLON !in fn && Op.Remove(fn) !in ops'
    requires forall j | 0 <= j < |ops| :: !(ops[j].Check? && ops[j].fn == fn)
    requires forall j | 0 <= j < |ops'| :: !(ops'[j].Check? && ops'[j].fn == fn)
    requires FirstAnswer(w, ops, fn, appends)
    ensures fn in w.initial
    ensures FirstAnswer(w.(files := files'), ops', fn, appends') <==>
            appends' == appends && AlikeFor(w.initial[fn][0], fn, w.files, files')
  {
    FirstAnswerMeaning(w, ops, fn, appends);
    FirstAnswerMeaning(w.(files := files'), ops', fn, appends');
    Agreement(w.initial[fn][0], fn, w.files, files');
  }

  /** Files that agree with a record agree with it again exactly when nothing that matters has changed. */
  lemma Agreement(info: Info, fn: string, a: Files, b: Files)
    requires info.Core? && TimesAgree(a, info, fn) && PresenceAgrees(a, info)
    ensures TimesAgree(b, info, fn) && PresenceAgrees(b, info) <==> AlikeFor(info, fn, a, b)
  {
    if TimesAgree(b, info, fn) {
      forall f, t | TimeMatters(info, fn, f) ensures HasTime(a, f, t) <==> HasTime(b, f, t) {
        if f != fn {
          var t' :| (f, t') in info.file_depends;
          assert HasTime(a, f, t') && HasTime(b, f, t');
        }
      }
    }
    if AlikeFor(info, fn, a, b) {
      assert TimeMatters(info, fn, fn);
      forall dep | dep in info.file_depends ensures HasTime(b, dep.0, dep.1) {
        assert (dep.0, dep.1) in info.file_depends;
        assert TimeMatters(info, fn, dep.0);
      }
      assert forall f | Listed(info, f, "True") :: PresenceMatters(info, f);
      assert forall f | Listed(info, f, "False") :: PresenceMatters(info, f);
    }
  }

  lemma {:induction false} NotChecked(w: World, t: Track, fn: string, ops: seq<Op>, op: Op)
    requires WellFormed(w.initial) && !t.checked && FirstChecked(ops + [op], fn, |ops|)
    ensures !TrackFrom(w, t, fn, ops).checked
    decreases |ops|
  {
    if ops != [] {
      assert (ops + [op])[0] == ops[0] && (ops + [op])[1..] == ops[1..] + [op];
      assert forall j | 0 <= j < |ops| :: (ops[1..] + [op])[j] == (ops + [op])[j + 1];
      NotChecked(w, Follow(w, t, fn, ops[0]), fn, ops[1..], op);
    }
  }

  lemma {:induction false} LoadFinds(d: Depends, fn: string, variants: seq<string>)
    requires forall i | 0 <= i < |variants| :: Variant2Virtual(fn, variants[i]) in d
    ensures Load(d, fn, variants).Some? && |Load(d, fn, variants).value| == |variants|
    ensures forall i | 0 <= i < |variants| ::
              Load(d, fn, variants).value[i] == (Variant2Virtual(fn, variants[i]), d[Variant2Virtual(fn, variants[i])])
  {
    if variants != [] {
      forall i | 0 <= i < |variants[1..]|
        ensures Variant2Virtual(fn, variants[1..][i]) in d
      {
        assert variants[1..][i] == variants[i + 1];
      }
      LoadFinds(d, fn, variants[1..]);
      forall i | 0 <= i < |variants|
        ensures Load(d, fn, variants).value[i] ==
                (Variant2Virtual(fn, variants[i]), d[Variant2Virtual(fn, variants[i])])
      {
        if i > 0 {
          assert variants[1..][i - 1] == variants[i];
        }
      }
    }
  }

  /** A recipe that is reported valid can be loaded, with the records of every variant as first loaded. */
  lemma ValidCanBeLoaded(w: World, ops: seq<Op>, fn: string, appends: seq<string>)
    requires WellFormed(w.initial) && RecipeOps(ops) && COLON !in fn
    requires ValidStep(Run(w, ops), w.files, w.classes, fn, appends).1
    ensures var d := ValidStep(Run(w, ops), w.files, w.classes, fn, appends).0.depends_cache;
            && fn in d && fn in w.initial && d[fn] == w.initial[fn] && WellFormed(d)
            && var variants := d[fn][0].variants; var infos := Load(d, fn, variants);
            && infos.Some? && |infos.value| == |variants|
            && forall i | 0 <= i < |variants| ::
                 && infos.value[i].0 == Variant2Virtual(fn, variants[i])
                 && infos.value[i].0 in w.initial && infos.value[i].1 == w.initial[infos.value[i].0]
  {
    var s, t := Run(w, ops), TrackOf(w, fn, ops);
    RunInvariant(w, ops, fn);
    var op := Check(fn, appends);
    OwnStep(w, s, op, t);
    CacheInvStep(w, s, op);
    var d := Step(w, s, op).depends_cache;
    VariantsOkCurrent(w, d, fn);
    LoadFinds(d, fn, d[fn][0].variants);
  }

  /** Either all variants of a recipe are marked clean, or none is. */
  predicate AllOrNone(w: World, s: State, fn: string)
    requires WellFormed(w.initial)
  {
    NamesOf(w, fn) <= s.clean || NamesOf(w, fn) !! s.clean
  }

  /**
   The variants of a recipe are clean all together or not at all, except exactly when the
   recipe was removed although a check had passed, and it has a variant besides itself.
   */
  lemma VariantsAllOrNone(w: World, ops: seq<Op>, fn: string)
    requires WellFormed(w.initial) && RecipeOps(ops) && COLON !in fn
    ensures var t := TrackOf(w, fn, ops);
            AllOrNone(w, Run(w, ops), fn) <==>
            !(t.checked && t.ok && t.removed && fn in NamesOf(w, fn) && NamesOf(w, fn) != {fn})
  {
    RunInvariant(w, ops, fn);
    var t, s := TrackOf(w, fn, ops), Run(w, ops);
    if t.checked && t.ok && t.removed && fn in NamesOf(w, fn) && NamesOf(w, fn) != {fn} {
      var m :| m in NamesOf(w, fn) && m != fn;
    }
  }

  /** Checked, and then removed, a recipe with another variant leaves that one marked clean. */
  lemma RemovedVariantStaysClean(fn: string, variant: string)
    requires COLON !in fn && variant != ""
    ensures var name := Variant2Virtual(fn, variant);
            var d := map[fn := [Core(1, [], None, [], ["", variant])], name := [Core(1, [], None, [], [])]];
            var w := World(Files(map[fn := 1], {}), d, 1);
            && WellFormed(d) && Run(w, [Check(fn, []), Op.Remove(fn)]).clean == {name}
            && NamesOf(w, fn) == {fn, name} && !AllOrNone(w, Run(w, [Check(fn, []), Op.Remove(fn)]), fn)
  {
    var name := Variant2Virtual(fn, variant);
    VariantForm(fn, variant);
    var d: Depends := map[fn := [Core(1, [], None, [], ["", variant])], name := [Core(1, [], None, [], [])]];
    var w := World(Files(map[fn := 1], {}), d, 1);
    var s := State(d, {}, {});
    var vs := ["", variant];
    assert vs[0] == "" && vs[1] == variant;
    assert VariantNames(fn, vs) == {fn, name} by {
      assert Variant2Virtual(fn, vs[0]) in VariantNames(fn, vs) && Variant2Virtual(fn, vs[1]) in VariantNames(fn, vs);
    }
    var s1 := Step(w, s, Check(fn, []));
    assert s1.clean == {fn, name};
    assert Step(w, s1, Op.Remove(fn)).clean == {name};
    var ops := [Check(fn, []), Op.Remove(fn)];
    assert ops[1..] == [Op.Remove(fn)] && ops[1..][1..] == [];
    assert RunFrom(w, s1, [Op.Remove(fn)]) == Step(w, s1, Op.Remove(fn));
  }
}
