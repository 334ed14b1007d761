/**
 The deduplicating codec of `SiggenRecipeInfo`.

 A writer sends a value in full the first time and by its number afterwards.  A reader keeps
 one table of numbers per writing process.  The tables live in class attributes, so one
 process may be writer and reader at once and `reset` clears both roles.
 */
module SiggenCodec {
  import opened Wrappers

  type Dep = string
  type Value = string
  type Pid = nat

  /** A dictionary in insertion order; `Missing` is Python's None in its place. */
  datatype Deps = Missing | Dict(items: seq<(Dep, Option<Value>)>)

  /** The three shapes of the tuples that are sent for an item. */
  datatype Entry = Nothing(dep: Dep) | Back(dep: Dep, num: nat) | Full(dep: Dep, fs: Value, num: nat)

  /** What is sent for a dictionary: an empty or missing one is sent as it is. */
  datatype Encoded = AsIs(deps: Deps) | Entries(entries: seq<Entry>)

  datatype Writer = Writer(save_map: map<Value, nat>, save_count: nat)
  datatype Reader = Reader(store: map<Value, Value>, restore_map: map<Pid, map<nat, Value>>)

  const FRESH_WRITER := Writer(map[], 1)

  predicate DistinctKeys(items: seq<(Dep, Option<Value>)>) {
    forall i, j | 0 <= i < j < |items| :: items[i].0 != items[j].0
  }

  predicate Truthy(deps: Deps) {
    deps.Dict? && deps.items != []
  }

  // ---- Encoding ----

  function SaveItem(w: Writer, item: (Dep, Option<Value>)): (Writer, Entry) {
    match item.1
    case None => (w, Nothing(item.0))
    case Some(fs) =>
      if fs in w.save_map then (w, Back(item.0, w.save_map[fs]))
      else (Writer(w.save_map[fs := w.save_count], w.save_count + 1), Full(item.0, fs, w.save_count))
  }

  function SaveItems(w: Writer, items: seq<(Dep, Option<Value>)>): (Writer, seq<Entry>)
    decreases |items|
  {
    if items == [] then (w, [])
    else
      var (w1, e) := SaveItem(w, items[0]);
      var (w2, es) := SaveItems(w1, items[1..]);
      (w2, [e] + es)
  }

  function Save(w: Writer, deps: Deps): (Writer, Encoded) {
    if !Truthy(deps) then (w, AsIs(deps))
    else var (w', es) := SaveItems(w, deps.items); (w', Entries(es))
  }

  // ---- Decoding ----

  /** `ret[dep] = v` on an insertion-ordered dictionary. */
  function Put(ret: seq<(Dep, Option<Value>)>, dep: Dep, v: Option<Value>): seq<(Dep, Option<Value>)> {
    if ret == [] then [(dep, v)]
    else if ret[0].0 == dep then [(dep, v)] + ret[1..]
    else [ret[0]] + Put(ret[1..], dep, v)
  }

  datatype Decoding = Decoding(store: map<Value, Value>, table: map<nat, Value>, ret: seq<(Dep, Option<Value>)>)

  /** `None` where the lookup of a number raises KeyError. */
  function RestoreEntry(d: Decoding, e: Entry): Option<Decoding> {
    match e
    case Nothing(dep) => Some(d.(ret := Put(d.ret, dep, None)))
    case Back(dep, n) => if n in d.table then Some(d.(ret := Put(d.ret, dep, Some(d.table[n])))) else None
    case Full(dep, fs, n) =>
      var v := if fs in d.store then d.store[fs] else fs;
      Some(Decoding(if fs in d.store then d.store else d.store[fs := fs], d.table[n := v], Put(d.ret, dep, Some(v))))
  }

  function RestoreEntries(d: Decoding, es: seq<Entry>): Option<Decoding>
    decreases |es|
  {
    if es == [] then Some(d)
    else
      match RestoreEntry(d, es[0])
      case None => None
      case Some(d1) => RestoreEntries(d1, es[1..])
  }

  function TableOf(r: Reader, pid: Pid): map<nat, Value> {
    if pid in r.restore_map then r.restore_map[pid] else map[]
  }

  /** The dictionary and the reader afterwards. */
  function Restore(r: Reader, enc: Encoded, pid: Pid): Option<(Reader, Deps)> {
    match enc
    case AsIs(deps) => Some((r, deps))
    case Entries(es) =>
      match RestoreEntries(Decoding(r.store, TableOf(r, pid), []), es)
      case None => None
      case Some(d) => Some((Reader(d.store, r.restore_map[pid := d.table]), Dict(d.ret)))
  }

  // ---- The class ----

  lemma UpdatedTwice(others: map<Pid, map<nat, Value>>, pid: Pid, m1: map<Pid, map<nat, Value>>,
                     m2: map<Pid, map<nat, Value>>)
    requires pid in m1 && m1 == others[pid := m1[pid]] && pid in m2 && m2 == m1[pid := m2[pid]]
    ensures m2 == others[pid := m2[pid]]
  {
  }

  lemma OneRestored(d: Decoding, es: seq<Entry>, i: nat)
    requires i < |es|
    ensures RestoreEntries(d, es[i..]) ==
            match RestoreEntry(d, es[i]) { case None => None case Some(d1) => RestoreEntries(d1, es[i + 1..]) }
  {
    assert es[i..][1..] == es[i + 1..];
  }

  class SiggenRecipeInfo {
    var save_map: map<Value, nat>
    var save_count: nat
    var store: map<Value, Value>
    var restore_map: map<Pid, map<nat, Value>>

    ghost function AsWriter(): Writer
      reads this
    {
      Writer(save_map, save_count)
    }

    ghost function AsReader(): Reader
      reads this
    {
      Reader(store, restore_map)
    }

    constructor ()
      ensures AsWriter() == FRESH_WRITER && AsReader() == Reader(map[], map[])
    {
      save_map, save_count, store, restore_map := map[], 1, map[], map[];
    }

    /** Forgets the numbers in both directions; the interned values stay. */
    method Reset()
      modifies this
      ensures AsWriter() == FRESH_WRITER && AsReader() == Reader(old(store), map[])
    {
      save_map, save_count, restore_map := map[], 1, map[];
    }

    method SaveDeps(deps: Deps) returns (enc: Encoded)
      modifies this`save_map, this`save_count
      ensures (AsWriter(), enc) == Save(old(AsWriter()), deps)
    {
      if !Truthy(deps) {
        return AsIs(deps);
      }
      var ret: seq<Entry> := [];
      ghost var w0 := AsWriter();
      assert deps.items[0..] == deps.items && ret + SaveItems(w0, deps.items).1 == SaveItems(w0, deps.items).1;
      for i := 0 to |deps.items|
        invariant var rest := SaveItems(AsWriter(), deps.items[i..]);
                  SaveItems(w0, deps.items) == (rest.0, ret + rest.1)
      {
        var (dep, v) := deps.items[i];
        ghost var w, sent := AsWriter(), ret;
        assert deps.items[i..][1..] == deps.items[i + 1..] && deps.items[i..][0] == deps.items[i];
        match v {
          case None => ret := ret + [Nothing(dep)];
          case Some(fs) =>
            if fs in save_map {
              ret := ret + [Back(dep, save_map[fs])];
            } else {
              save_map := save_map[fs := save_count];
              ret := ret + [Full(dep, fs, save_count)];
              save_count := save_count + 1;
            }
        }
        assert (AsWriter(), [ret[|ret| - 1]]) == (SaveItem(w, deps.items[i]).0, [SaveItem(w, deps.items[i]).1]);
        ghost var rest := SaveItems(AsWriter(), deps.items[i + 1..]).1;
        assert ret + rest == sent + ([ret[|ret| - 1]] + rest);
      }
      assert ret + [] == ret;
      enc := Entries(ret);
    }

    /** `None` when a number is unknown, which raises KeyError in the middle of the loop. */
    method RestoreDeps(enc: Encoded, pid: Pid) returns (deps: Option<Deps>)
      modifies this`store, this`restore_map
      ensures match Restore(old(AsReader()), enc, pid)
              case None => deps.None?
              case Some((r, d)) => AsReader() == r && deps == Some(d)
    {
      if enc.AsIs? {
        return Some(enc.deps);
      }
      ghost var r0, d0 := AsReader(), Decoding(store, TableOf(AsReader(), pid), []);
      if pid !in restore_map {
        restore_map := restore_map[pid := map[]];
      }
      ghost var others := restore_map;
      var ret: seq<(Dep, Option<Value>)> := [];
      var deps' := enc.entries;
      for i := 0 to |deps'|
        invariant pid in restore_map && restore_map == others[pid := restore_map[pid]]
        invariant RestoreEntries(d0, deps') == RestoreEntries(Decoding(store, restore_map[pid], ret), deps'[i..])
      {
        ghost var before := restore_map;
        OneRestored(Decoding(store, restore_map[pid], ret), deps', i);
        var known;
        known, ret := RestoreOne(deps'[i], pid, ret);
        UpdatedTwice(others, pid, before, restore_map);
        if !known {
          return None;
        }
      }
      deps := Some(Dict(ret));
    }

    /** One turn of the loop; `known` is false where the lookup of a number raises KeyError. */
    method RestoreOne(e: Entry, pid: Pid, ret: seq<(Dep, Option<Value>)>)
      returns (known: bool, ret': seq<(Dep, Option<Value>)>)
      requires pid in restore_map
      modifies this`store, this`restore_map
      ensures pid in restore_map && restore_map == old(restore_map)[pid := restore_map[pid]]
      ensures match RestoreEntry(Decoding(old(store), old(restore_map)[pid], ret), e)
              case None => !known
              case Some(d) => known && d == Decoding(store, restore_map[pid], ret')
    {
      known, ret' := true, ret;
      match e {
        case Nothing(dep) => ret' := Put(ret, dep, None);
        case Back(dep, mapnum) =>
          if mapnum !in restore_map[pid] {
            return false, ret;
          }
          ret' := Put(ret, dep, Some(restore_map[pid][mapnum]));
        case Full(dep, fs, mapnum) =>
          var v := fs;
          if fs in store {
            v := store[fs];
          } else {
            store := store[fs := fs];
          }
          var table: map<nat, Value> := restore_map[pid];
          restore_map := restore_map[pid := table[mapnum := v]];
          ret' := Put(ret, dep, Some(v));
      }
    }
  }

  // ---- One dictionary ----

  /** The numbers given out are distinct and below the counter. */
  ghost predicate WriterInv(w: Writer) {
    && 0 < w.save_count
    && (forall v | v in w.save_map :: 0 < w.save_map[v] < w.save_count)
    && (forall u, v | u in w.save_map && v in w.save_map && w.save_map[u] == w.save_map[v] :: u == v)
  }

  /**
   What a reader's table for a writer has to do with the writer: for the numbers in `known`
   it has the value the writer means, and it has nothing for the writer's other numbers.
   */
  ghost predicate Agree(w: Writer, table: map<nat, Value>, known: set<nat>) {
    forall v | v in w.save_map ::
      (w.save_map[v] in known ==> w.save_map[v] in table && table[w.save_map[v]] == v)
      && (w.save_map[v] !in known ==> w.save_map[v] !in table)
  }

  ghost predicate StoreInv(store: map<Value, Value>) {
    forall v | v in store :: store[v] == v
  }

  /** Every value that the dictionary shares with earlier ones has a number in `known`. */
  ghost predicate BackRefsKnown(w: Writer, known: set<nat>, items: seq<(Dep, Option<Value>)>) {
    forall i | 0 <= i < |items| && items[i].1.Some? && items[i].1.value in w.save_map ::
      w.save_map[items[i].1.value] in known
  }

  ghost function Numbers(lo: nat, hi: nat): (ns: set<nat>)
    ensures forall n :: n in ns <==> lo <= n < hi
    decreases hi
  {
    if lo >= hi then {} else Numbers(lo, hi - 1) + {hi - 1}
  }

  ghost function NewNumbers(w: Writer, w': Writer): set<nat> {
    Numbers(w.save_count, w'.save_count)
  }

  lemma PutNew(ret: seq<(Dep, Option<Value>)>, dep: Dep, v: Option<Value>)
    requires forall i | 0 <= i < |ret| :: ret[i].0 != dep
    ensures Put(ret, dep, v) == ret + [(dep, v)]
  {
  }

  /** A key that is there keeps its place and gets the new value, the others keep theirs. */
  lemma {:induction false} PutAgain(ret: seq<(Dep, Option<Value>)>, dep: Dep, v: Option<Value>, i: nat)
    requires i < |ret| && ret[i].0 == dep && forall j | 0 <= j < i :: ret[j].0 != dep
    ensures var r := Put(ret, dep, v);
            |r| == |ret| && forall j | 0 <= j < |r| :: r[j] == if j == i then (dep, v) else ret[j]
  {
    if i > 0 {
      PutAgain(ret[1..], dep, v, i - 1);
    }
  }

  /** One item: the entry decodes to the item exactly when its number, if any, is known. */
  lemma ItemRoundTrip(w: Writer, d: Decoding, known: set<nat>, item: (Dep, Option<Value>))
    requires WriterInv(w) && Agree(w, d.table, known) && StoreInv(d.store)
    requires forall i | 0 <= i < |d.ret| :: d.ret[i].0 != item.0
    ensures var (w', e) := SaveItem(w, item);
            && WriterInv(w') && w.save_count <= w'.save_count
            && (RestoreEntry(d, e).Some? <==> BackRefsKnown(w, known, [item]))
            && (RestoreEntry(d, e).Some? ==>
                  var d' := RestoreEntry(d, e).value;
                  d'.ret == d.ret + [item] && StoreInv(d'.store) && Agree(w', d'.table, known + NewNumbers(w, w')))
  {
    PutNew(d.ret, item.0, item.1);
    assert [item][0] == item;
    var w' := SaveItem(w, item).0;
    match item.1
    case None =>
      assert NewNumbers(w, w') == {} && known + {} == known;
    case Some(fs) =>
      if fs in w.save_map {
        assert NewNumbers(w, w') == {} && known + {} == known;
        assert BackRefsKnown(w, known, [item]) <==> w.save_map[fs] in known;
      } else {
        assert w.save_count in NewNumbers(w, w');
        assert BackRefsKnown(w, known, [item]);
        NewItemAgrees(w, d.table, known, fs);
      }
  }

  lemma NewItemAgrees(w: Writer, table: map<nat, Value>, known: set<nat>, fs: Value)
    requires WriterInv(w) && Agree(w, table, known) && fs !in w.save_map
    ensures var w' := Writer(w.save_map[fs := w.save_count], w.save_count + 1);
            WriterInv(w') && Agree(w', table[w.save_count := fs], known + NewNumbers(w, w'))
  {
  }

  lemma {:induction false} ItemsRoundTrip(w: Writer, d: Decoding, known: set<nat>, items: seq<(Dep, Option<Value>)>)
    requires WriterInv(w) && Agree(w, d.table, known) && StoreInv(d.store)
    requires DistinctKeys(d.ret + items)
    ensures var (w', es) := SaveItems(w, items);
            && WriterInv(w') && w.save_count <= w'.save_count
            && (RestoreEntries(d, es).Some? <==> BackRefsKnown(w, known, items))
            && (RestoreEntries(d, es).Some? ==>
                  var d' := RestoreEntries(d, es).value;
                  d'.ret == d.ret + items && StoreInv(d'.store) && Agree(w', d'.table, known + NewNumbers(w, w')))
    decreases |items|
  {
    if items == [] {
      assert d.ret + items == d.ret;
    } else {
      FirstItem(d.ret, items);
      ItemRoundTrip(w, d, known, items[0]);
      FirstItemKnown(w, known, items);
      var (w1, e) := SaveItem(w, items[0]);
      OneSaved(w, d, items);
      if RestoreEntry(d, e).Some? {
        ItemsRoundTrip(w1, RestoreEntry(d, e).value, known + NewNumbers(w, w1), items[1..]);
        MoreNumbers(known, w, w1, SaveItems(w1, items[1..]).0);
      } else {
        SaveItemsInv(w1, items[1..]);
      }
    }
  }

  /** As many numbers are in use as values were sent, beginning with 1. */
  predicate NoGaps(w: Writer) {
    w.save_count == |w.save_map| + 1 && forall v | v in w.save_map :: 1 <= w.save_map[v] <= |w.save_map|
  }

  /** Numbers are given out one after the other, so from a fresh writer on there is never a gap. */
  lemma {:induction false} NumbersWithoutGaps(w: Writer, items: seq<(Dep, Option<Value>)>)
    requires NoGaps(w)
    ensures NoGaps(SaveItems(w, items).0) && NoGaps(FRESH_WRITER)
    decreases |items|
  {
    if items != [] {
      NumbersWithoutGaps(SaveItem(w, items[0]).0, items[1..]);
    }
  }

  /** Exactly the values sent in full join the interned ones, each as itself; those interned before stay. */
  lemma {:induction false} ValuesInterned(d: Decoding, es: seq<Entry>)
    requires RestoreEntries(d, es).Some?
    ensures var store := RestoreEntries(d, es).value.store;
            && (forall v | v in d.store :: v in store && store[v] == d.store[v])
            && (forall v | v !in d.store :: v in store <==> SentInFull(es, v))
            && (forall v | v in store && v !in d.store :: store[v] == v)
    decreases |es|
  {
    if es != [] {
      ValuesInterned(RestoreEntry(d, es[0]).value, es[1..]);
      forall v ensures SentInFull(es, v) <==> SentInFull([es[0]], v) || SentInFull(es[1..], v) {
        assert es == [es[0]] + es[1..];
      }
      assert forall v :: SentInFull([es[0]], v) <==> es[0].Full? && es[0].fs == v;
    }
  }

  predicate SentInFull(es: seq<Entry>, v: Value) {
    exists e | e in es :: e.Full? && e.fs == v
  }

  /** The first item has a new key, and belongs to what is decoded when the others follow. */
  lemma FirstItem(ret: seq<(Dep, Option<Value>)>, items: seq<(Dep, Option<Value>)>)
    requires items != [] && DistinctKeys(ret + items)
    ensures forall i | 0 <= i < |ret| :: ret[i].0 != items[0].0
    ensures ret + [items[0]] + items[1..] == ret + items
  {
    var all := ret + items;
    assert all[|ret|] == items[0] && forall i | 0 <= i < |ret| :: all[i] == ret[i];
  }

  /** Encoding and decoding of some items, the first one taken apart. */
  lemma OneSaved(w: Writer, d: Decoding, items: seq<(Dep, Option<Value>)>)
    requires items != []
    ensures var (w1, e) := SaveItem(w, items[0]);
            && SaveItems(w, items).0 == SaveItems(w1, items[1..]).0
            && RestoreEntries(d, SaveItems(w, items).1) ==
               match RestoreEntry(d, e)
               { case None => None case Some(d1) => RestoreEntries(d1, SaveItems(w1, items[1..]).1) }
  {
    var (w1, e) := SaveItem(w, items[0]);
    var es := SaveItems(w1, items[1..]).1;
    assert ([e] + es)[1..] == es;
  }

  lemma MoreNumbers(known: set<nat>, w: Writer, w1: Writer, w2: Writer)
    requires w.save_count <= w1.save_count <= w2.save_count
    ensures known + NewNumbers(w, w1) + NewNumbers(w1, w2) == known + NewNumbers(w, w2)
  {
  }

  /** The condition on the whole is that on the first item and, with its new number, the rest. */
  lemma FirstItemKnown(w: Writer, known: set<nat>, items: seq<(Dep, Option<Value>)>)
    requires items != [] && WriterInv(w)
    ensures var w1 := SaveItem(w, items[0]).0;
            BackRefsKnown(w, known, items) <==>
            BackRefsKnown(w, known, [items[0]]) && BackRefsKnown(w1, known + NewNumbers(w, w1), items[1..])
  {
    var w1 := SaveItem(w, items[0]).0;
    if BackRefsKnown(w, known, items) {
      forall i | 0 <= i < |items[1..]| && items[1..][i].1.Some? && items[1..][i].1.value in w1.save_map
        ensures w1.save_map[items[1..][i].1.value] in known + NewNumbers(w, w1)
      {
        assert items[1..][i] == items[i + 1];
      }
    }
    if BackRefsKnown(w, known, [items[0]]) && BackRefsKnown(w1, known + NewNumbers(w, w1), items[1..]) {
      forall i | 0 <= i < |items| && items[i].1.Some? && items[i].1.value in w.save_map
        ensures w.save_map[items[i].1.value] in known
      {
        if i == 0 {
          assert [items[0]][0] == items[0];
        } else {
          assert items[1..][i - 1] == items[i];
        }
      }
    }
  }

  lemma {:induction false} SaveItemsInv(w: Writer, items: seq<(Dep, Option<Value>)>)
    requires WriterInv(w)
    ensures WriterInv(SaveItems(w, items).0) && w.save_count <= SaveItems(w, items).0.save_count
    decreases |items|
  {
    if items != [] {
      SaveItemsInv(SaveItem(w, items[0]).0, items[1..]);
    }
  }

  /**
   A dictionary survives the trip exactly when the reader knows the numbers it refers back
   to; the reader may hold any stale entries for numbers the writer has not given out.
   */
  lemma DictRoundTrip(w: Writer, r: Reader, pid: Pid, known: set<nat>, deps: Deps)
    requires WriterInv(w) && Agree(w, TableOf(r, pid), known) && StoreInv(r.store)
    requires deps.Dict? ==> DistinctKeys(deps.items)
    ensures var (w', enc) := Save(w, deps);
            && WriterInv(w') && w.save_count <= w'.save_count
            && (Restore(r, enc, pid).Some? <==> (deps.Dict? ==> BackRefsKnown(w, known, deps.items)))
            && (Restore(r, enc, pid).Some? ==>
                  var (r', deps') := Restore(r, enc, pid).value;
                  && deps' == deps && StoreInv(r'.store)
                  && Agree(w', TableOf(r', pid), known + NewNumbers(w, w'))
                  && forall p | p != pid :: TableOf(r', p) == TableOf(r, p))
  {
    if Truthy(deps) {
      var d := Decoding(r.store, TableOf(r, pid), []);
      assert [] + deps.items == deps.items;
      ItemsRoundTrip(w, d, known, deps.items);
    } else {
      assert known + NewNumbers(w, w) == known;
    }
  }

  // ---- Whole runs ----

  /**
   What happens, in the order in which the reader sees it.  Each process sends its own
   dictionaries in order; the streams of several processes interleave freely.  A process
   that reads and also writes resets both roles at once.
   */
  datatype Event = Send(pid: Pid, deps: Deps) | ResetWriter(pid: Pid) | ResetReader

  datatype World = World(writers: map<Pid, Writer>, reader: Reader)

  function WriterOf(writers: map<Pid, Writer>, pid: Pid): Writer {
    if pid in writers then writers[pid] else FRESH_WRITER
  }

  /** The world after an event and the decoded dictionary; `None` when decoding fails. */
  function Happen(s: World, e: Event): Option<(World, seq<Deps>)> {
    match e
    case ResetWriter(pid) => Some((s.(writers := s.writers[pid := FRESH_WRITER]), []))
    case ResetReader => Some((s.(reader := s.reader.(restore_map := map[])), []))
    case Send(pid, deps) =>
      var (w', enc) := Save(WriterOf(s.writers, pid), deps);
      match Restore(s.reader, enc, pid)
      case None => None
      case Some((r', deps')) => Some((World(s.writers[pid := w'], r'), [deps']))
  }

  function RunEvents(s: World, es: seq<Event>): Option<seq<Deps>>
    decreases |es|
  {
    if es == [] then Some([])
    else
      match Happen(s, es[0])
      case None => None
      case Some((s', out)) =>
        match RunEvents(s', es[1..])
        case None => None
        case Some(rest) => Some(out + rest)
  }

  function Sent(es: seq<Event>): seq<Deps> {
    if es == [] then [] else (if es[0].Send? then [es[0].deps] else []) + Sent(es[1..])
  }

  /** The writers, and per process the numbers it has sent in full since both were last reset. */
  datatype Track = Track(writers: map<Pid, Writer>, known: map<Pid, set<nat>>)

  function KnownOf(t: Track, pid: Pid): set<nat> {
    if pid in t.known then t.known[pid] else {}
  }

  ghost function Follow(t: Track, e: Event): Track {
    match e
    case ResetWriter(pid) => Track(t.writers[pid := FRESH_WRITER], t.known[pid := {}])
    case ResetReader => t.(known := map[])
    case Send(pid, deps) =>
      var w := WriterOf(t.writers, pid);
      var w' := Save(w, deps).0;
      Track(t.writers[pid := w'], t.known[pid := KnownOf(t, pid) + NewNumbers(w, w')])
  }

  /** No dictionary refers back across a reset of the reader. */
  ghost predicate NoRefAcrossReset(t: Track, es: seq<Event>)
    decreases |es|
  {
    es == [] || (
      && (es[0].Send? && es[0].deps.Dict? ==>
            BackRefsKnown(WriterOf(t.writers, es[0].pid), KnownOf(t, es[0].pid), es[0].deps.items))
      && NoRefAcrossReset(Follow(t, es[0]), es[1..]))
  }

  ghost predicate Tracks(s: World, t: Track) {
    && s.writers == t.writers && StoreInv(s.reader.store)
    && forall pid :: WriterInv(WriterOf(s.writers, pid))
                     && Agree(WriterOf(s.writers, pid), TableOf(s.reader, pid), KnownOf(t, pid))
  }

  predicate WellFormedEvents(es: seq<Event>) {
    forall i | 0 <= i < |es| && es[i].Send? && es[i].deps.Dict? :: DistinctKeys(es[i].deps.items)
  }

  lemma HappenTracks(s: World, t: Track, e: Event)
    requires Tracks(s, t) && (e.Send? && e.deps.Dict? ==> DistinctKeys(e.deps.items))
    ensures Happen(s, e).Some? <==>
            (e.Send? && e.deps.Dict? ==> BackRefsKnown(WriterOf(t.writers, e.pid), KnownOf(t, e.pid), e.deps.items))
    ensures Happen(s, e).Some? ==>
              && Tracks(Happen(s, e).value.0, Follow(t, e))
              && Happen(s, e).value.1 == if e.Send? then [e.deps] else []
  {
    if e.Send? {
      DictRoundTrip(WriterOf(s.writers, e.pid), s.reader, e.pid, KnownOf(t, e.pid), e.deps);
    }
    if Happen(s, e).Some? {
      var s', t' := Happen(s, e).value.0, Follow(t, e);
      forall pid
        ensures WriterInv(WriterOf(s'.writers, pid))
        ensures Agree(WriterOf(s'.writers, pid), TableOf(s'.reader, pid), KnownOf(t', pid))
      {
        assert WriterInv(WriterOf(s.writers, pid));
        assert Agree(WriterOf(s.writers, pid), TableOf(s.reader, pid), KnownOf(t, pid));
      }
    }
  }

  /** A whole run gives back what was sent exactly when nothing refers across a reader reset. */
  lemma {:induction false} RunRoundTrip(s: World, t: Track, es: seq<Event>)
    requires Tracks(s, t) && WellFormedEvents(es)
    ensures RunEvents(s, es) == Some(Sent(es)) <==> NoRefAcrossReset(t, es)
    ensures RunEvents(s, es).Some? ==> RunEvents(s, es) == Some(Sent(es))
    decreases |es|
  {
    if es != [] {
      HappenTracks(s, t, es[0]);
      if Happen(s, es[0]).Some? {
        RunRoundTrip(Happen(s, es[0]).value.0, Follow(t, es[0]), es[1..]);
      }
    }
  }

  /** Without a reset of the reader every number that a writer uses is known. */
  ghost predicate AllKnown(t: Track) {
    forall pid :: PidKnown(t, pid)
  }

  lemma {:induction false} SavedNumbers(w: Writer, items: seq<(Dep, Option<Value>)>, known: set<nat>)
    requires WriterInv(w) && forall v | v in w.save_map :: w.save_map[v] in known
    ensures var w' := SaveItems(w, items).0;
            forall v | v in w'.save_map :: w'.save_map[v] in known + NewNumbers(w, w')
    decreases |items|
  {
    if items != [] {
      var w1 := SaveItem(w, items[0]).0;
      SaveItemsInv(w1, items[1..]);
      SavedNumbers(w1, items[1..], known + NewNumbers(w, w1));
      var w' := SaveItems(w, items).0;
      assert known + NewNumbers(w, w1) + NewNumbers(w1, w') == known + NewNumbers(w, w');
    }
  }

  ghost predicate PidKnown(t: Track, pid: Pid) {
    && WriterInv(WriterOf(t.writers, pid))
    && forall v | v in WriterOf(t.writers, pid).save_map :: WriterOf(t.writers, pid).save_map[v] in KnownOf(t, pid)
  }

  lemma AllKnownStep(t: Track, e: Event)
    requires AllKnown(t) && !e.ResetReader?
    ensures AllKnown(Follow(t, e))
    ensures e.Send? && e.deps.Dict? ==> BackRefsKnown(WriterOf(t.writers, e.pid), KnownOf(t, e.pid), e.deps.items)
  {
    if e.Send? {
      assert PidKnown(t, e.pid);
      if Truthy(e.deps) {
        var w := WriterOf(t.writers, e.pid);
        SavedNumbers(w, e.deps.items, KnownOf(t, e.pid));
        SaveItemsInv(w, e.deps.items);
      }
    }
    forall pid
      ensures PidKnown(Follow(t, e), pid)
    {
      assert PidKnown(t, pid);
    }
  }

  lemma {:induction false} NoResetNoLoss(t: Track, es: seq<Event>)
    requires AllKnown(t) && forall i | 0 <= i < |es| :: !es[i].ResetReader?
    ensures NoRefAcrossReset(t, es)
    decreases |es|
  {
    if es != [] {
      AllKnownStep(t, es[0]);
      NoResetNoLoss(Follow(t, es[0]), es[1..]);
    }
  }

  /**
   From writers that start afresh, over any interleaving of their streams and any resets of
   theirs, a reader with whatever stale tables gives back every dictionary in order.
   */
  lemma InterleavedRoundTrip(r: Reader, es: seq<Event>)
    requires StoreInv(r.store) && WellFormedEvents(es)
    requires forall i | 0 <= i < |es| :: !es[i].ResetReader?
    ensures RunEvents(World(map[], r), es) == Some(Sent(es))
  {
    var t := Track(map[], map[]);
    RunRoundTrip(World(map[], r), t, es);
    NoResetNoLoss(t, es);
  }

  /** A reset of the reader in the middle of a stream does lose a dictionary. */
  lemma ReaderResetLoses(pid: Pid)
    ensures var d := Dict([("a", Some("x"))]);
            RunEvents(World(map[], Reader(map[], map[])), [Send(pid, d), ResetReader, Send(pid, d)]) == None
  {
    var d := Dict([("a", Some("x"))]);
    var t := Track(map[], map[]);
    var es := [Send(pid, d), ResetReader, Send(pid, d)];
    RunRoundTrip(World(map[], Reader(map[], map[])), t, es);
    var t1 := Follow(t, es[0]);
    assert SaveItems(FRESH_WRITER, d.items).0.save_map == map["x" := 1] by {
      assert d.items[1..] == [];
    }
    var t2 := Follow(t1, ResetReader);
    assert es[1..][0] == ResetReader && es[1..][1..][0] == Send(pid, d);
    assert d.items[0].1.value in WriterOf(t2.writers, pid).save_map;
    assert !BackRefsKnown(WriterOf(t2.writers, pid), KnownOf(t2, pid), d.items);
    assert !NoRefAcrossReset(t2, es[1..][1..]);
    assert !NoRefAcrossReset(t1, es[1..]);
  }

  // ---- Each value travels once ----

  function Occurs(items: seq<(Dep, Option<Value>)>, v: Value): bool {
    exists i | 0 <= i < |items| :: items[i].1 == Some(v)
  }

  function FullCount(es: seq<Entry>, v: Value): nat {
    if es == [] then 0 else (if es[0].Full? && es[0].fs == v then 1 else 0) + FullCount(es[1..], v)
  }

  /** A value of some items is sent in full if it has no number yet, and then once. */
  lemma {:induction false} ItemsSentOnce(w: Writer, items: seq<(Dep, Option<Value>)>, v: Value)
    ensures FullCount(SaveItems(w, items).1, v) == if Occurs(items, v) && v !in w.save_map then 1 else 0
    ensures v in SaveItems(w, items).0.save_map <==> v in w.save_map || Occurs(items, v)
    decreases |items|
  {
    if items != [] {
      var (w1, e) := SaveItem(w, items[0]);
      ItemsSentOnce(w1, items[1..], v);
      var es := SaveItems(w1, items[1..]).1;
      assert ([e] + es)[1..] == es;
      assert Occurs(items, v) <==> items[0].1 == Some(v) || Occurs(items[1..], v) by {
        if Occurs(items[1..], v) {
          var i :| 0 <= i < |items[1..]| && items[1..][i].1 == Some(v);
          assert items[i + 1].1 == Some(v);
        }
        if Occurs(items, v) && items[0].1 != Some(v) {
          var i :| 0 <= i < |items| && items[i].1 == Some(v);
          assert items[1..][i - 1].1 == Some(v);
        }
      }
    }
  }

  /** The stream of one process: what it sends for its dictionaries, in order, with its resets. */
  function Stream(w: Writer, pid: Pid, es: seq<Event>): seq<Encoded>
    decreases |es|
  {
    if es == [] then []
    else if es[0] == ResetWriter(pid) then Stream(FRESH_WRITER, pid, es[1..])
    else if es[0].Send? && es[0].pid == pid then
      [Save(w, es[0].deps).1] + Stream(Save(w, es[0].deps).0, pid, es[1..])
    else Stream(w, pid, es[1..])
  }

  /** How often a stream has the value in full. */
  function FullInStream(encs: seq<Encoded>, v: Value): nat {
    if encs == [] then 0
    else (if encs[0].AsIs? then 0 else FullCount(encs[0].entries, v)) + FullInStream(encs[1..], v)
  }

  /** Some dictionary that the process sends has the value. */
  predicate Sends(es: seq<Event>, pid: Pid, v: Value) {
    exists i | 0 <= i < |es| :: SendsIn(es[i], pid, v)
  }

  predicate SendsIn(e: Event, pid: Pid, v: Value) {
    e.Send? && e.pid == pid && e.deps.Dict? && Occurs(e.deps.items, v)
  }

  /** What reaches the reader: an encoded dictionary of a process, or the reset of its own tables. */
  datatype Wire = Packet(pid: Pid, enc: Encoded) | Cleared

  /** The writers' side of a run. */
  function Transmit(writers: map<Pid, Writer>, es: seq<Event>): seq<Wire>
    decreases |es|
  {
    if es == [] then []
    else
      match es[0]
      case ResetWriter(pid) => Transmit(writers[pid := FRESH_WRITER], es[1..])
      case ResetReader => [Cleared] + Transmit(writers, es[1..])
      case Send(pid, deps) =>
        var (w, enc) := Save(WriterOf(writers, pid), deps);
        [Packet(pid, enc)] + Transmit(writers[pid := w], es[1..])
  }

  /** The reader's side of a run. */
  function Receive(r: Reader, ws: seq<Wire>): Option<seq<Deps>>
    decreases |ws|
  {
    if ws == [] then Some([])
    else
      match ws[0]
      case Cleared => Receive(r.(restore_map := map[]), ws[1..])
      case Packet(pid, enc) =>
        match Restore(r, enc, pid)
        case None => None
        case Some((r', deps)) =>
          match Receive(r', ws[1..])
          case None => None
          case Some(rest) => Some([deps] + rest)
  }

  /** A run is what the reader makes of what the writers transmit. */
  lemma {:induction false} RunIsTransmission(s: World, es: seq<Event>)
    ensures RunEvents(s, es) == Receive(s.reader, Transmit(s.writers, es))
    decreases |es|
  {
    if es != [] {
      var rest := es[1..];
      match es[0]
      case ResetWriter(pid) =>
        RunIsTransmission(s.(writers := s.writers[pid := FRESH_WRITER]), rest);
        Unprefixed(RunEvents(s.(writers := s.writers[pid := FRESH_WRITER]), rest));
      case ResetReader =>
        RunIsTransmission(s.(reader := s.reader.(restore_map := map[])), rest);
        Unprefixed(RunEvents(s.(reader := s.reader.(restore_map := map[])), rest));
        OneWire(Cleared, Transmit(s.writers, rest));
      case Send(pid, deps) =>
        var (w, enc) := Save(WriterOf(s.writers, pid), deps);
        OneWire(Packet(pid, enc), Transmit(s.writers[pid := w], rest));
        if Restore(s.reader, enc, pid).Some? {
          RunIsTransmission(World(s.writers[pid := w], Restore(s.reader, enc, pid).value.0), rest);
        }
    }
  }

  lemma Unprefixed(out: Option<seq<Deps>>)
    ensures out.Some? ==> [] + out.value == out.value
  {
  }

  lemma OneWire(w: Wire, ws: seq<Wire>)
    ensures ([w] + ws)[0] == w && ([w] + ws)[1..] == ws
  {
  }

  /** The packets of one process, in order. */
  function PacketsOf(ws: seq<Wire>, pid: Pid): seq<Encoded> {
    if ws == [] then []
    else (if ws[0].Packet? && ws[0].pid == pid then [ws[0].enc] else []) + PacketsOf(ws[1..], pid)
  }

  /** What reaches the reader from a process is its stream, however the streams interleave. */
  lemma {:induction false} StreamTransmitted(writers: map<Pid, Writer>, es: seq<Event>, pid: Pid)
    ensures PacketsOf(Transmit(writers, es), pid) == Stream(WriterOf(writers, pid), pid, es)
    decreases |es|
  {
    if es != [] {
      var rest := es[1..];
      match es[0]
      case ResetWriter(p) =>
        StreamTransmitted(writers[p := FRESH_WRITER], rest, pid);
      case ResetReader =>
        StreamTransmitted(writers, rest, pid);
        OneWire(Cleared, Transmit(writers, rest));
      case Send(p, deps) =>
        var (w, enc) := Save(WriterOf(writers, p), deps);
        StreamTransmitted(writers[p := w], rest, pid);
        OneWire(Packet(p, enc), Transmit(writers[p := w], rest));
    }
  }

  lemma SaveSentOnce(w: Writer, pid: Pid, deps: Deps, v: Value)
    ensures FullInStream([Save(w, deps).1], v) == if SendsIn(Send(pid, deps), pid, v) && v !in w.save_map then 1 else 0
    ensures v in Save(w, deps).0.save_map <==> v in w.save_map || SendsIn(Send(pid, deps), pid, v)
  {
    var enc := Save(w, deps).1;
    assert [enc][1..] == [];
    if Truthy(deps) {
      ItemsSentOnce(w, deps.items, v);
    }
  }

  lemma SendsFirst(es: seq<Event>, pid: Pid, v: Value)
    requires es != []
    ensures Sends(es, pid, v) <==> SendsIn(es[0], pid, v) || Sends(es[1..], pid, v)
  {
    if Sends(es[1..], pid, v) {
      var i :| 0 <= i < |es[1..]| && SendsIn(es[1..][i], pid, v);
      assert SendsIn(es[i + 1], pid, v);
    }
    if Sends(es, pid, v) && !SendsIn(es[0], pid, v) {
      var i :| 0 <= i < |es| && SendsIn(es[i], pid, v);
      assert SendsIn(es[1..][i - 1], pid, v);
    }
  }

  /**
   Until a process resets its writer, each value it sends is sent in full exactly once in its whole
   stream of dictionaries, whatever other processes send in between, and never if it has a number.
   */
  lemma {:induction false} SentOnce(w: Writer, pid: Pid, es: seq<Event>, v: Value)
    requires ResetWriter(pid) !in es
    ensures FullInStream(Stream(w, pid, es), v) == if Sends(es, pid, v) && v !in w.save_map then 1 else 0
    decreases |es|
  {
    if es != [] {
      SendsFirst(es, pid, v);
      assert es[0] in es && forall e | e in es[1..] :: e in es;
      if es[0].Send? && es[0].pid == pid {
        SaveSentOnce(w, pid, es[0].deps, v);
        SentOnce(Save(w, es[0].deps).0, pid, es[1..], v);
        FullInStreamCons(Save(w, es[0].deps).1, Stream(Save(w, es[0].deps).0, pid, es[1..]), v);
      } else {
        SentOnce(w, pid, es[1..], v);
      }
    }
  }

  lemma FullInStreamCons(enc: Encoded, encs: seq<Encoded>, v: Value)
    ensures FullInStream([enc] + encs, v) == FullInStream([enc], v) + FullInStream(encs, v)
  {
    assert ([enc] + encs)[1..] == encs && [enc][1..] == [];
  }
}
