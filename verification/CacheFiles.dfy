/**
 Saving the recipe cache to one file per record class, and loading it back.

 `sync` goes through the whole cache once per class and writes the records of that class;
 `load_cachefile` reads the files in the order of the classes and appends to the lists.
 */
module CacheFiles {
  import opened Sequences

  datatype Record = Record(classname: string, payload: string)
  datatype RecordClass = RecordClass(name: string, cachefile: string)

  /** What one `load()` of a pickle stream gives back; `Other` for objects of other types. */
  datatype Obj = Text(s: string) | Rec(r: Record) | Other

  type Records = map<string, seq<Record>>
  type Entry = (string, Record)

  const CACHE_VERSION := "155"

  // ---- What the files contain ----

  /** The records of one class in a list, in order. */
  function OfClass(infos: seq<Record>, cls: string): seq<Record> {
    if infos == [] then []
    else (if infos[0].classname == cls then [infos[0]] else []) + OfClass(infos[1..], cls)
  }

  function Tagged(key: string, infos: seq<Record>): (es: seq<Entry>)
    ensures |es| == |infos| && forall i | 0 <= i < |es| :: es[i] == (key, infos[i])
  {
    seq(|infos|, i requires 0 <= i < |infos| => (key, infos[i]))
  }

  /** The entries of one file, for the keys in dictionary order. */
  function ClassEntries(d: Records, order: seq<string>, cls: string): seq<Entry>
    requires forall k :: k in order ==> k in d
  {
    if order == [] then [] else Tagged(order[0], OfClass(d[order[0]], cls)) + ClassEntries(d, order[1..], cls)
  }

  function Dump(es: seq<Entry>): seq<Obj> {
    if es == [] then [] else [Text(es[0].0), Rec(es[0].1)] + Dump(es[1..])
  }

  /** The entries that the loader accepts: it stops at the end and at the first odd object. */
  function Parse(objs: seq<Obj>): seq<Entry>
    decreases |objs|
  {
    if |objs| >= 2 && objs[0].Text? && objs[1].Rec? then [(objs[0].s, objs[1].r)] + Parse(objs[2..]) else []
  }

  function AppendEntry(d: Records, e: Entry): Records {
    d[e.0 := (if e.0 in d then d[e.0] else []) + [e.1]]
  }

  function AppendAll(d: Records, es: seq<Entry>): Records
    decreases |es|
  {
    if es == [] then d else AppendAll(AppendEntry(d, es[0]), es[1..])
  }

  predicate HasVersions(objs: seq<Obj>, bitbake: string) {
    |objs| >= 2 && objs[0] == Text(CACHE_VERSION) && objs[1] == Text(bitbake)
  }

  /** The loading of all classes; it stops for good at a file of another version. */
  function LoadClasses(files: map<string, seq<Obj>>, bitbake: string, classes: seq<RecordClass>, d: Records): Records
    requires forall c :: c in classes ==> c.cachefile in files
  {
    if classes == [] then d
    else
      var objs := files[classes[0].cachefile];
      if !HasVersions(objs, bitbake) then d
      else LoadClasses(files, bitbake, classes[1..], AppendAll(d, Parse(objs[2..])))
  }

  function FileOf(d: Records, order: seq<string>, cls: RecordClass, bitbake: string): seq<Obj>
    requires forall k :: k in order ==> k in d
  {
    [Text(CACHE_VERSION), Text(bitbake)] + Dump(ClassEntries(d, order, cls.name))
  }

  // ---- The cache object ----

  predicate Enumerates(order: seq<string>, d: Records) {
    && (forall k | k in d :: k in order)
    && (forall i | 0 <= i < |order| :: order[i] in d)
    && (forall i, j | 0 <= i < j < |order| :: order[i] != order[j])
  }

  lemma {:induction false} TaggedAppend(key: string, a: seq<Record>, b: seq<Record>)
    ensures Tagged(key, a + b) == Tagged(key, a) + Tagged(key, b)
  {
    if a == [] {
      assert a + b == b;
    } else {
      assert (a + b)[1..] == a[1..] + b;
      TaggedAppend(key, a[1..], b);
      Assoc([(key, a[0])], Tagged(key, a[1..]), Tagged(key, b));
    }
  }

  lemma {:induction false} ClassEntriesAppend(d: Records, a: seq<string>, b: seq<string>, cls: string)
    requires (forall k :: k in a ==> k in d) && forall k :: k in b ==> k in d
    ensures ClassEntries(d, a + b, cls) == ClassEntries(d, a, cls) + ClassEntries(d, b, cls)
  {
    if a == [] {
      assert a + b == b;
    } else {
      assert (a + b)[1..] == a[1..] + b;
      ClassEntriesAppend(d, a[1..], b, cls);
      Assoc(Tagged(a[0], OfClass(d[a[0]], cls)), ClassEntries(d, a[1..], cls), ClassEntries(d, b, cls));
    }
  }

  /** What one more key adds to a file. */
  lemma OneKey(f: seq<Obj>, d: Records, order: seq<string>, i: nat, cls: string)
    requires i < |order| && forall k :: k in order ==> k in d
    ensures f + Dump(ClassEntries(d, order[..i + 1], cls)) ==
            f + Dump(ClassEntries(d, order[..i], cls)) + Dump(Tagged(order[i], OfClass(d[order[i]], cls)))
  {
    var before, es := ClassEntries(d, order[..i], cls), Tagged(order[i], OfClass(d[order[i]], cls));
    assert order[..i + 1] == order[..i] + [order[i]];
    ClassEntriesAppend(d, order[..i], [order[i]], cls);
    assert ClassEntries(d, [order[i]], cls) == es by {
      assert [order[i]][1..] == [] && es + [] == es;
    }
    DumpAppend(before, es);
    Assoc(f, Dump(before), Dump(es));
  }

  /** What one more record adds to a file. */
  lemma OneRecord(f: seq<Obj>, key: string, infos: seq<Record>, j: nat, cls: string)
    requires j < |infos|
    ensures f + Dump(Tagged(key, OfClass(infos[..j + 1], cls))) ==
            f + Dump(Tagged(key, OfClass(infos[..j], cls))) + if infos[j].classname == cls
                then [Text(key), Rec(infos[j])] else []
  {
    var before, one := OfClass(infos[..j], cls), OfClass([infos[j]], cls);
    assert infos[..j + 1] == infos[..j] + [infos[j]];
    OfClassConcat(infos[..j], [infos[j]], cls);
    TaggedAppend(key, before, one);
    DumpAppend(Tagged(key, before), Tagged(key, one));
    Assoc(f, Dump(Tagged(key, before)), Dump(Tagged(key, one)));
    OneDump(key, infos[j], cls);
  }

  lemma OneDump(key: string, info: Record, cls: string)
    ensures Dump(Tagged(key, OfClass([info], cls))) == if info.classname == cls then [Text(key), Rec(info)] else []
  {
    assert [info][1..] == [];
    if info.classname == cls {
      assert [info] == OfClass([info], cls);
      assert Tagged(key, [info]) == [(key, info)];
      assert [(key, info)][1..] == [];
    }
  }

  class CacheStore {
    const classes: seq<RecordClass>
    const bitbake: string
    var cacheclean: bool
    var depends_cache: Records
    var files: map<string, seq<Obj>>

    constructor (classes: seq<RecordClass>, bitbake: string, d: Records, clean: bool, files: map<string, seq<Obj>>)
      ensures this.classes == classes && this.bitbake == bitbake && depends_cache == d
      ensures cacheclean == clean && this.files == files
    {
      this.classes, this.bitbake, depends_cache, cacheclean, this.files := classes, bitbake, d, clean, files;
    }

    /** The loop over the records of one key: those of the class are dumped behind the key. */
    method WriteKey(f: seq<Obj>, key: string, cls: RecordClass) returns (f': seq<Obj>)
      requires key in depends_cache
      ensures f' == f + Dump(Tagged(key, OfClass(depends_cache[key], cls.name)))
    {
      var info_array := depends_cache[key];
      f' := f;
      for j := 0 to |info_array|
        invariant f' == f + Dump(Tagged(key, OfClass(info_array[..j], cls.name)))
      {
        var info := info_array[j];
        OneRecord(f, key, info_array, j, cls.name);
        if info.classname == cls.name {
          f' := f' + [Text(key), Rec(info)];
        }
      }
      assert info_array[..|info_array|] == info_array;
    }

    /** The loop over the keys of the cache that fills one file. */
    method WriteClass(order: seq<string>, cls: RecordClass)
      requires Enumerates(order, depends_cache)
      modifies this`files
      ensures files == old(files)[cls.cachefile := FileOf(depends_cache, order, cls, bitbake)]
    {
      var f := [Text(CACHE_VERSION), Text(bitbake)];
      ghost var header := f;
      for i := 0 to |order|
        invariant files == old(files)
        invariant f == header + Dump(ClassEntries(depends_cache, order[..i], cls.name))
      {
        OneKey(header, depends_cache, order, i, cls.name);
        f := WriteKey(f, order[i], cls);
      }
      assert order[..|order|] == order;
      files := files[cls.cachefile := f];
    }

    /** `sync`, for the keys in the order of the dictionary. */
    method Sync(order: seq<string>)
      requires Enumerates(order, depends_cache)
      requires forall i, j | 0 <= i < j < |classes| :: classes[i].cachefile != classes[j].cachefile
      modifies this
      ensures old(cacheclean) ==> files == old(files) && depends_cache == old(depends_cache)
      ensures !old(cacheclean) ==> depends_cache == map[]
      ensures !old(cacheclean) ==> forall c | c in classes ::
                c.cachefile in files && files[c.cachefile] == FileOf(old(depends_cache), order, c, bitbake)
      ensures forall n | n in files || n in old(files) ::
                (exists c :: c in classes && c.cachefile == n)
                || (n in files && n in old(files) && files[n] == old(files)[n])
    {
      if cacheclean {
        return;
      }
      for i := 0 to |classes|
        invariant depends_cache == old(depends_cache)
        invariant forall c | c in classes[..i] ::
                    c.cachefile in files && files[c.cachefile] == FileOf(depends_cache, order, c, bitbake)
        invariant forall n | n in files || n in old(files) ::
                    (exists c :: c in classes && c.cachefile == n)
                    || (n in files && n in old(files) && files[n] == old(files)[n])
      {
        assert classes[i] in classes;
        WriteClass(order, classes[i]);
      }
      depends_cache := map[];
    }

    /** The loop over the objects of one file behind the versions. */
    method LoadFile(objs: seq<Obj>)
      modifies this`depends_cache
      ensures depends_cache == AppendAll(old(depends_cache), Parse(objs))
    {
      var at := 0;
      assert objs[0..] == objs;
      while at + 2 <= |objs|
        invariant 0 <= at <= |objs|
        invariant AppendAll(old(depends_cache), Parse(objs)) == AppendAll(depends_cache, Parse(objs[at..]))
        decreases |objs| - at
      {
        var key, value := objs[at], objs[at + 1];
        assert objs[at..][0] == key && objs[at..][1] == value && objs[at..][2..] == objs[at + 2..];
        if !key.Text? {
          break;
        }
        if !value.Rec? {
          break;
        }
        if key.s in depends_cache {
          depends_cache := depends_cache[key.s := depends_cache[key.s] + [value.r]];
        } else {
          depends_cache := depends_cache[key.s := [value.r]];
          assert [] + [value.r] == [value.r];
        }
        at := at + 2;
      }
    }

    /** `load_cachefile`: 0 when some file has another version, although earlier files stay loaded. */
    method LoadCachefile() returns (count: nat)
      requires forall c :: c in classes ==> c.cachefile in files
      modifies this`depends_cache
      ensures depends_cache == LoadClasses(files, bitbake, classes, old(depends_cache))
      ensures count == if exists c :: c in classes && OtherVersions(files[c.cachefile], bitbake)
                       then 0 else |depends_cache|
    {
      assert classes[0..] == classes;
      for i := 0 to |classes|
        invariant forall c :: c in classes[i..] ==> c in classes
        invariant LoadClasses(files, bitbake, classes, old(depends_cache)) ==
                  LoadClasses(files, bitbake, classes[i..], depends_cache)
        invariant forall j | 0 <= j < i :: HasVersions(files[classes[j].cachefile], bitbake)
      {
        var objs := files[classes[i].cachefile];
        assert classes[i..][0] == classes[i] && classes[i..][1..] == classes[i + 1..];
        if !HasVersions(objs, bitbake) {
          assert classes[i] in classes;
          return 0;
        }
        LoadFile(objs[2..]);
      }
      count := |depends_cache|;
    }
  }

  // ---- Loading undoes saving ----

  lemma {:induction false} DumpAppend(es: seq<Entry>, fs: seq<Entry>)
    ensures Dump(es + fs) == Dump(es) + Dump(fs)
  {
    if es == [] {
      assert es + fs == fs;
    } else {
      assert (es + fs)[1..] == es[1..] + fs;
      DumpAppend(es[1..], fs);
    }
  }

  lemma {:induction false} ParseDump(es: seq<Entry>)
    ensures Parse(Dump(es)) == es
  {
    if es != [] {
      ParseDump(es[1..]);
      assert Dump(es)[2..] == Dump(es[1..]);
    }
  }

  lemma {:induction false} AppendAllConcat(d: Records, es: seq<Entry>, fs: seq<Entry>)
    ensures AppendAll(d, es + fs) == AppendAll(AppendAll(d, es), fs)
    decreases |es|
  {
    if es == [] {
      assert es + fs == fs;
    } else {
      assert (es + fs)[1..] == es[1..] + fs;
      AppendAllConcat(AppendEntry(d, es[0]), es[1..], fs);
    }
  }

  function ListOf(d: Records, k: string): seq<Record> {
    if k in d then d[k] else []
  }

  lemma {:induction false} AppendTagged(d: Records, key: string, infos: seq<Record>)
    ensures var r := AppendAll(d, Tagged(key, infos));
            && (forall k | k != key :: (k in r <==> k in d) && ListOf(r, k) == ListOf(d, k))
            && ListOf(r, key) == ListOf(d, key) + infos
            && (key in r <==> key in d || infos != [])
    decreases |infos|
  {
    var es := Tagged(key, infos);
    if infos == [] {
      assert ListOf(d, key) + infos == ListOf(d, key);
    } else {
      assert es[1..] == Tagged(key, infos[1..]);
      AppendTagged(AppendEntry(d, es[0]), key, infos[1..]);
      assert ListOf(d, key) + [infos[0]] + infos[1..] == ListOf(d, key) + infos;
    }
  }

  /** A file adds to the list of every key the records of its class. */
  lemma {:induction false} AppendClass(d: Records, order: seq<string>, cls: string, r: Records)
    requires forall k :: k in order ==> k in d
    requires forall i, j | 0 <= i < j < |order| :: order[i] != order[j]
    ensures var r' := AppendAll(r, ClassEntries(d, order, cls));
            && (forall k | k !in order :: (k in r' <==> k in r) && ListOf(r', k) == ListOf(r, k))
            && (forall k | k in order :: ListOf(r', k) == ListOf(r, k) + OfClass(d[k], cls)
                                         && (k in r' <==> k in r || OfClass(d[k], cls) != []))
    decreases |order|
  {
    if order != [] {
      var key, es := order[0], Tagged(order[0], OfClass(d[order[0]], cls));
      AppendAllConcat(r, es, ClassEntries(d, order[1..], cls));
      AppendTagged(r, key, OfClass(d[key], cls));
      AppendClass(d, order[1..], cls, AppendAll(r, es));
      assert key !in order[1..];
      assert forall k :: k in order <==> k == key || k in order[1..];
    }
  }

  /** The records of a list, class by class. */
  function Grouped(infos: seq<Record>, classes: seq<RecordClass>): seq<Record> {
    if classes == [] then [] else OfClass(infos, classes[0].name) + Grouped(infos, classes[1..])
  }

  /** All entries of all files, in the order in which they are loaded. */
  function AllEntries(d: Records, order: seq<string>, classes: seq<RecordClass>): seq<Entry>
    requires forall k :: k in order ==> k in d
  {
    if classes == [] then [] else ClassEntries(d, order, classes[0].name) + AllEntries(d, order, classes[1..])
  }

  lemma LoadOne(d: Records, order: seq<string>, cls: RecordClass, bitbake: string, objs: seq<Obj>)
    requires Enumerates(order, d) && objs == FileOf(d, order, cls, bitbake)
    ensures HasVersions(objs, bitbake) && Parse(objs[2..]) == ClassEntries(d, order, cls.name)
  {
    var es := ClassEntries(d, order, cls.name);
    assert objs[2..] == Dump(es);
    ParseDump(es);
  }

  lemma {:induction false} LoadSaved(files: map<string, seq<Obj>>, bitbake: string, classes: seq<RecordClass>,
                                     d: Records, order: seq<string>, r: Records)
    requires Enumerates(order, d)
    requires forall c :: c in classes ==> c.cachefile in files && files[c.cachefile] == FileOf(d, order, c, bitbake)
    ensures LoadClasses(files, bitbake, classes, r) == AppendAll(r, AllEntries(d, order, classes))
    decreases |classes|
  {
    if classes != [] {
      var es := ClassEntries(d, order, classes[0].name);
      assert classes[0] in classes;
      LoadOne(d, order, classes[0], bitbake, files[classes[0].cachefile]);
      LoadSaved(files, bitbake, classes[1..], d, order, AppendAll(r, es));
      AppendAllConcat(r, es, AllEntries(d, order, classes[1..]));
    }
  }

  /** `r'` is `r` with the records `more` added to the list of `k`. */
  predicate Grown(r: Records, r': Records, k: string, more: seq<Record>) {
    ListOf(r', k) == ListOf(r, k) + more && (k in r' <==> k in r || more != [])
  }

  lemma GrownTwice(r: Records, r1: Records, r2: Records, k: string, a: seq<Record>, b: seq<Record>)
    requires Grown(r, r1, k, a) && Grown(r1, r2, k, b)
    ensures Grown(r, r2, k, a + b)
  {
    assert ListOf(r, k) + a + b == ListOf(r, k) + (a + b);
  }

  lemma AppendClassKey(d: Records, order: seq<string>, cls: string, r: Records, k: string)
    requires Enumerates(order, d)
    ensures Grown(r, AppendAll(r, ClassEntries(d, order, cls)), k, OfClass(ListOf(d, k), cls))
  {
    AppendClass(d, order, cls, r);
    assert k in d <==> k in order;
    assert ListOf(r, k) + [] == ListOf(r, k);
  }

  /** What the loading of all files does to the list of one key. */
  lemma {:induction false} KeyGrows(d: Records, order: seq<string>, classes: seq<RecordClass>, r: Records, k: string)
    requires Enumerates(order, d)
    ensures Grown(r, AppendAll(r, AllEntries(d, order, classes)), k, Grouped(ListOf(d, k), classes))
    decreases |classes|
  {
    if classes == [] {
      assert ListOf(r, k) + [] == ListOf(r, k);
    } else {
      var cls, rest := classes[0].name, classes[1..];
      var es := ClassEntries(d, order, cls);
      var r1 := AppendAll(r, es);
      AppendAllConcat(r, es, AllEntries(d, order, rest));
      AppendClassKey(d, order, cls, r, k);
      KeyGrows(d, order, rest, r1, k);
      GrownTwice(r, r1, AppendAll(r1, AllEntries(d, order, rest)), k, OfClass(ListOf(d, k), cls),
          Grouped(ListOf(d, k), rest));
    }
  }

  /** The list starts with the records of the first class, goes on with those of the second, and so on. */
  predicate InClassOrder(infos: seq<Record>, classes: seq<RecordClass>)
    decreases |classes|
  {
    if classes == [] then infos == []
    else InClassOrder(infos[Leading(infos, classes[0].name)..], classes[1..])
  }

  /** How many records of the class the list starts with. */
  function Leading(infos: seq<Record>, cls: string): (n: nat)
    ensures n <= |infos|
  {
    if infos == [] || infos[0].classname != cls then 0 else 1 + Leading(infos[1..], cls)
  }

  predicate DistinctNames(classes: seq<RecordClass>) {
    forall i, j | 0 <= i < j < |classes| :: classes[i].name != classes[j].name
  }

  predicate NoneOf(infos: seq<Record>, cls: string) {
    forall i | 0 <= i < |infos| :: infos[i].classname != cls
  }

  predicate AllOf(infos: seq<Record>, cls: string) {
    forall i | 0 <= i < |infos| :: infos[i].classname == cls
  }

  lemma {:induction false} OfClassMembers(infos: seq<Record>, cls: string)
    ensures AllOf(OfClass(infos, cls), cls)
    ensures AllOf(infos, cls) ==> OfClass(infos, cls) == infos
    ensures NoneOf(infos, cls) ==> OfClass(infos, cls) == []
  {
    if infos != [] {
      OfClassMembers(infos[1..], cls);
      assert forall i | 0 <= i < |infos| - 1 :: infos[1..][i] == infos[i + 1];
      assert infos == [infos[0]] + infos[1..];
    }
  }

  lemma {:induction false} OfClassConcat(a: seq<Record>, b: seq<Record>, cls: string)
    ensures OfClass(a + b, cls) == OfClass(a, cls) + OfClass(b, cls)
  {
    if a == [] {
      assert a + b == b;
    } else {
      assert (a + b)[1..] == a[1..] + b;
      OfClassConcat(a[1..], b, cls);
      Assoc([a[0]], OfClass(a[1..], cls), OfClass(b, cls));
    }
  }

  lemma {:induction false} LeadingSplit(a: seq<Record>, b: seq<Record>, cls: string)
    requires AllOf(a, cls) && NoneOf(b, cls)
    ensures Leading(a + b, cls) == |a|
  {
    if a == [] {
      assert a + b == b;
    } else {
      assert (a + b)[0] == a[0] && (a + b)[1..] == a[1..] + b;
      assert AllOf(a[1..], cls);
      LeadingSplit(a[1..], b, cls);
    }
  }

  lemma {:induction false} LeadingAll(infos: seq<Record>, cls: string)
    ensures AllOf(infos[..Leading(infos, cls)], cls)
  {
    if infos != [] && infos[0].classname == cls {
      LeadingAll(infos[1..], cls);
      var n := Leading(infos[1..], cls);
      assert infos[..n + 1] == [infos[0]] + infos[1..][..n];
    }
  }

  /** Records of a class that is not asked for do not matter. */
  lemma {:induction false} GroupedSkips(a: seq<Record>, b: seq<Record>, cls: string, classes: seq<RecordClass>)
    requires AllOf(a, cls) && forall c :: c in classes ==> c.name != cls
    ensures Grouped(a + b, classes) == Grouped(b, classes)
    decreases |classes|
  {
    if classes != [] {
      var c := classes[0].name;
      assert classes[0] in classes;
      assert OfClass(a + b, c) == OfClass(b, c) by {
        OfClassConcat(a, b, c);
        assert NoneOf(a, c);
        OfClassMembers(a, c);
      }
      GroupedSkips(a, b, cls, classes[1..]);
    }
  }

  lemma {:induction false} GroupedNone(infos: seq<Record>, cls: string, classes: seq<RecordClass>)
    requires forall c :: c in classes ==> c.name != cls
    ensures NoneOf(Grouped(infos, classes), cls)
    decreases |classes|
  {
    if classes != [] {
      OfClassMembers(infos, classes[0].name);
      GroupedNone(infos, cls, classes[1..]);
    }
  }

  /** Grouping by class leaves a list alone exactly when it is in class order already. */
  lemma {:induction false} GroupedIff(infos: seq<Record>, classes: seq<RecordClass>)
    requires DistinctNames(classes)
    ensures Grouped(infos, classes) == infos <==> InClassOrder(infos, classes)
    decreases |classes|
  {
    if classes != [] {
      var cls, rest := classes[0].name, classes[1..];
      var n := Leading(infos, cls);
      var a, b := infos[..n], infos[n..];
      LeadingAll(infos, cls);
      assert infos == a + b;
      assert forall c :: c in rest ==> c.name != cls;
      GroupedSkips(a, b, cls, rest);
      GroupedIff(b, rest);
      FirstClass(infos, a, b, cls, rest);
    }
  }

  /** Taking the records of one class to the front keeps a list exactly if they are there, and the rest is kept. */
  lemma FirstClass(infos: seq<Record>, a: seq<Record>, b: seq<Record>, cls: string, rest: seq<RecordClass>)
    requires infos == a + b && |a| == Leading(infos, cls) && AllOf(a, cls)
    requires (forall c :: c in rest ==> c.name != cls) && Grouped(infos, rest) == Grouped(b, rest)
    ensures OfClass(infos, cls) + Grouped(infos, rest) == infos <==> Grouped(b, rest) == b
  {
    OfClassConcat(a, b, cls);
    OfClassMembers(a, cls);
    GroupedNone(infos, cls, rest);
    if Grouped(b, rest) == b {
      OfClassMembers(b, cls);
      assert a + [] == a;
    }
    if OfClass(infos, cls) + Grouped(infos, rest) == infos {
      OfClassMembers(infos, cls);
      LeadingSplit(OfClass(infos, cls), Grouped(infos, rest), cls);
      Halves(OfClass(infos, cls), Grouped(infos, rest), a, b);
    }
  }

  lemma Halves(a: seq<Record>, b: seq<Record>, c: seq<Record>, d: seq<Record>)
    requires a + b == c + d && |a| == |c|
    ensures a == c && b == d
  {
    assert (a + b)[..|a|] == a && (c + d)[..|c|] == c;
    assert (a + b)[|a|..] == b && (c + d)[|c|..] == d;
  }

  /** One record per class, in the order of the classes, as the parser makes the lists. */
  lemma {:induction false} OnePerClassInOrder(infos: seq<Record>, classes: seq<RecordClass>)
    requires DistinctNames(classes) && |infos| == |classes|
    requires forall i | 0 <= i < |infos| :: infos[i].classname == classes[i].name
    ensures InClassOrder(infos, classes)
    decreases |classes|
  {
    if classes != [] {
      assert infos == [infos[0]] + infos[1..];
      forall i | 0 <= i < |infos[1..]|
        ensures infos[1..][i].classname == classes[i + 1].name
      {
      }
      LeadingSplit([infos[0]], infos[1..], classes[0].name);
      OnePerClassInOrder(infos[1..], classes[1..]);
    }
  }

  /**
   Saving and loading into an empty cache gives back the same map exactly when every list is
   non-empty and in class order.
   */
  lemma SaveLoadRoundTrip(files: map<string, seq<Obj>>, bitbake: string, classes: seq<RecordClass>, d: Records,
                          order: seq<string>)
    requires Enumerates(order, d) && DistinctNames(classes)
    requires forall c :: c in classes ==> c.cachefile in files && files[c.cachefile] == FileOf(d, order, c, bitbake)
    ensures LoadClasses(files, bitbake, classes, map[]) == d <==>
            forall k | k in d :: d[k] != [] && InClassOrder(d[k], classes)
  {
    LoadSaved(files, bitbake, classes, d, order, map[]);
    AllEntriesRoundTrip(classes, d, order);
  }

  /** A key without records is not in any file, so it is not there after loading. */
  lemma EmptyListLost(cls: RecordClass, bitbake: string, key: string)
    ensures var d: Records := map[key := []];
            LoadClasses(map[cls.cachefile := FileOf(d, [key], cls, bitbake)], bitbake, [cls], map[]) == map[]
  {
    var d: Records := map[key := []];
    assert ClassEntries(d, [key], cls.name) == [] by {
      assert [key][1..] == [];
    }
    var f := FileOf(d, [key], cls, bitbake);
    assert f[2..] == [] && [cls][1..] == [];
  }

  lemma {:induction false} GroupedEmpty(classes: seq<RecordClass>)
    ensures Grouped([], classes) == []
    decreases |classes|
  {
    if classes != [] {
      GroupedEmpty(classes[1..]);
    }
  }

  lemma AllEntriesRoundTrip(classes: seq<RecordClass>, d: Records, order: seq<string>)
    requires Enumerates(order, d) && DistinctNames(classes)
    ensures AppendAll(map[], AllEntries(d, order, classes)) == d <==>
            forall k | k in d :: d[k] != [] && InClassOrder(d[k], classes)
  {
    var r := AppendAll(map[], AllEntries(d, order, classes));
    forall k
      ensures k in r ==> k in d
      ensures k in d ==> (k in r && r[k] == d[k] <==> d[k] != [] && InClassOrder(d[k], classes))
    {
      KeyComesBack(classes, d, order, k);
    }
  }

  /** A key comes back with its list exactly if the list is not empty and in class order. */
  lemma KeyComesBack(classes: seq<RecordClass>, d: Records, order: seq<string>, k: string)
    requires Enumerates(order, d) && DistinctNames(classes)
    ensures var r := AppendAll(map[], AllEntries(d, order, classes));
            && (k in r ==> k in d)
            && (k in d ==> (k in r && r[k] == d[k] <==> d[k] != [] && InClassOrder(d[k], classes)))
  {
    KeyGrows(d, order, classes, map[], k);
    if k in d {
      GroupedIff(d[k], classes);
    } else {
      GroupedEmpty(classes);
    }
  }

  /** The two operations one after the other. */
  method SaveAndLoad(classes: seq<RecordClass>, bitbake: string, d: Records, order: seq<string>)
    returns (loaded: Records, count: nat)
    requires Enumerates(order, d) && DistinctNames(classes)
    requires forall i, j | 0 <= i < j < |classes| :: classes[i].cachefile != classes[j].cachefile
    ensures loaded == d <==> forall k | k in d :: d[k] != [] && InClassOrder(d[k], classes)
    ensures count == |loaded|
  {
    var store := new CacheStore(classes, bitbake, d, false, map[]);
    store.Sync(order);
    SaveLoadRoundTrip(store.files, bitbake, classes, d, order);
    count := store.LoadCachefile();
    loaded := store.depends_cache;
  }

  // ---- Files that are not as saved ----

  /** What ends the loop over the objects of a file: its end, a key that is no text, or a value that is no record. */
  predicate EndsLoop(rest: seq<Obj>) {
    |rest| < 2 || !rest[0].Text? || !rest[1].Rec?
  }

  /** The entries before the first odd object count, what is behind it does not. */
  lemma {:induction false} ParseStops(es: seq<Entry>, rest: seq<Obj>)
    requires EndsLoop(rest)
    ensures Parse(Dump(es) + rest) == es
  {
    if es == [] {
      assert Dump(es) + rest == rest;
    } else {
      Assoc([Text(es[0].0), Rec(es[0].1)], Dump(es[1..]), rest);
      ParseNext(es[0].0, es[0].1, Dump(es[1..]) + rest);
      ParseStops(es[1..], rest);
    }
  }

  lemma ParseNext(key: string, value: Record, more: seq<Obj>)
    ensures Parse([Text(key), Rec(value)] + more) == [(key, value)] + Parse(more)
  {
    assert ([Text(key), Rec(value)] + more)[2..] == more;
  }

  /** A file with these versions, these entries behind them, and then something odd. */
  predicate Holds(objs: seq<Obj>, bitbake: string, es: seq<Entry>, rest: seq<Obj>) {
    objs == [Text("155"), Text(bitbake)] + (Dump(es) + rest) && EndsLoop(rest)
  }

  predicate OtherVersions(objs: seq<Obj>, bitbake: string) {
    |objs| < 2 || objs[0] != Text("155") || objs[1] != Text(bitbake)
  }

  /**
   The entries of the files up to the first one of another cache version or of another BitBake version are loaded;
   nothing of that file, and nothing of those behind it.
   */
  lemma {:induction false} OtherVersionEndsLoading(files: map<string, seq<Obj>>, bitbake: string,
                                                   classes: seq<RecordClass>, entries: seq<seq<Entry>>,
                                                   rests: seq<seq<Obj>>, d: Records)
    requires forall c :: c in classes ==> c.cachefile in files
    requires |rests| == |entries| <= |classes|
    requires forall i | 0 <= i < |entries| :: Holds(files[classes[i].cachefile], bitbake, entries[i], rests[i])
    requires |entries| < |classes| ==> OtherVersions(files[classes[|entries|].cachefile], bitbake)
    ensures LoadClasses(files, bitbake, classes, d) == AppendAll(d, Concat(entries))
    decreases |classes|
  {
    if entries != [] {
      var objs := files[classes[0].cachefile];
      assert Holds(objs, bitbake, entries[0], rests[0]);
      assert objs[2..] == Dump(entries[0]) + rests[0];
      ParseStops(entries[0], rests[0]);
      forall i | 0 <= i < |entries[1..]|
        ensures Holds(files[classes[1..][i].cachefile], bitbake, entries[1..][i], rests[1..][i])
      {
        assert Holds(files[classes[i + 1].cachefile], bitbake, entries[i + 1], rests[i + 1]);
      }
      OtherVersionEndsLoading(files, bitbake, classes[1..], entries[1..], rests[1..], AppendAll(d, entries[0]));
      AppendAllConcat(d, entries[0], Concat(entries[1..]));
    }
  }

  /** What another version of BitBake has saved is not loaded. */
  lemma OtherBitBakeLoadsNothing(files: map<string, seq<Obj>>, old_: string, bitbake: string,
                                 classes: seq<RecordClass>, d: Records, order: seq<string>, r: Records)
    requires Enumerates(order, d) && classes != [] && old_ != bitbake
    requires forall c :: c in classes ==> c.cachefile in files && files[c.cachefile] == FileOf(d, order, c, old_)
    ensures LoadClasses(files, bitbake, classes, r) == r
  {
    assert classes[0] in classes;
    OtherVersionEndsLoading(files, bitbake, classes, [], [], r);
  }
}
