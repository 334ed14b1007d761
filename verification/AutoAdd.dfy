/**
 Watching new subtrees: how the notifier's queue grows while it is drained.

 When a directory appears under an `auto_add` watch, a watch is put on it, and for everything
 that is in it already a creation event is made up and queued.  These events are processed
 in the same loop.
 */
module AutoAdd {
  import opened Wrappers

  type Name = string
  /** A path by its components. */
  type Path = seq<Name>
  type ProcFun = nat
  type Filter = nat
  type Flag = string

  const IN_CREATE: Flag := "IN_CREATE"

  // ---- The file tree ----

  datatype Node = File | Special | Dir(entries: Entries)

  /** The entries of a directory in the order of `os.listdir`. */
  datatype Entries = Nil | Cons(name: Name, node: Node, rest: Entries)

  function NamesIn(es: Entries): set<Name> {
    match es
    case Nil => {}
    case Cons(n, _, rest) => {n} + NamesIn(rest)
  }

  predicate WellFormed(node: Node) {
    match node
    case Dir(es) => WellFormedEntries(es)
    case _ => true
  }

  predicate WellFormedEntries(es: Entries) {
    match es
    case Nil => true
    case Cons(n, node, rest) => n !in NamesIn(rest) && WellFormed(node) && WellFormedEntries(rest)
  }

  function Lookup(es: Entries, n: Name): Option<Node> {
    match es
    case Nil => None
    case Cons(m, node, rest) => if m == n then Some(node) else Lookup(rest, n)
  }

  function Find(root: Node, p: Path): Option<Node>
    decreases |p|
  {
    if p == [] then Some(root)
    else
      match root
      case Dir(es) =>
        (match Lookup(es, p[0])
         case None => None
         case Some(node) => Find(node, p[1..]))
      case _ => None
  }

  /** What does not change: the tree, what the filters exclude, and what the kernel refuses. */
  datatype World = World(root: Node, excluded: (Filter, Path) -> bool, unwatchable: Path -> bool)

  // ---- The notifier and the watch manager ----

  datatype Watch = Watch(path: Path, mask: set<Flag>, proc_fun: ProcFun, auto_add: bool, exclude_filter: Filter)

  datatype RawEvent = Create(wd: int, isdir: bool, name: Name)

  /** An event handed to a processing function. */
  datatype Delivery = Delivery(proc_fun: ProcFun, path: Path, name: Name, isdir: bool)

  datatype State = State(wmd: map<int, Watch>, next_wd: int, eventq: seq<RawEvent>, log: seq<Delivery>)

  /** `get_wd` */
  ghost function GetWd(wmd: map<int, Watch>, path: Path): (r: Option<int>)
    ensures r.Some? ==> r.value in wmd && wmd[r.value].path == path
    ensures r.None? ==> forall wd | wd in wmd :: wmd[wd].path != path
  {
    if exists wd | wd in wmd :: wmd[wd].path == path then
      var wd :| wd in wmd && wmd[wd].path == path;
      Some(wd)
    else None
  }

  /** `add_watch` of one path; the kernel answers with the descriptor of a path it knows. */
  ghost function AddWatch(w: World, s: State, path: Path, mask: set<Flag>, proc_fun: ProcFun, auto_add: bool,
                          filter: Filter): (State, int) {
    if w.excluded(filter, path) then (s, -2)
    else if w.unwatchable(path) then (s, -1)
    else
      var watch := Watch(path, if auto_add then mask + {IN_CREATE} else mask, proc_fun, auto_add, filter);
      match GetWd(s.wmd, path)
      case Some(wd) => (s.(wmd := s.wmd[wd := watch]), wd)
      case None => (s.(wmd := s.wmd[s.next_wd := watch], next_wd := s.next_wd + 1), s.next_wd)
  }

  /** The events made up for the entries of a new directory that are not watched yet. */
  ghost function MadeUp(wmd: map<int, Watch>, wd: int, dir: Path, es: Entries): seq<RawEvent> {
    match es
    case Nil => []
    case Cons(n, node, rest) =>
      (if GetWd(wmd, dir + [n]).Some? || node.Special? then [] else [Create(wd, node.Dir?, n)]) +
          MadeUp(wmd, wd, dir, rest)
  }

  predicate Watched(wmd: map<int, Watch>, path: Path) {
    exists k | k in wmd :: wmd[k].path == path
  }

  /** In the order of the listing: the first entry makes up the first event, or none. */
  lemma MadeUpFirst(wmd: map<int, Watch>, wd: int, dir: Path, es: Entries)
    requires es.Cons?
    ensures MadeUp(wmd, wd, dir, es) ==
            (if es.node.Special? || Watched(wmd, dir + [es.name]) then [] else [Create(wd, es.node.Dir?, es.name)])
            + MadeUp(wmd, wd, dir, es.rest)
  {
  }

  /** Exactly one event for each entry that is neither special nor watched already, and no other. */
  lemma {:induction false} MadeUpMeaning(wmd: map<int, Watch>, wd: int, dir: Path, es: Entries, e: RawEvent)
    requires WellFormedEntries(es)
    ensures multiset(MadeUp(wmd, wd, dir, es))[e] == if MakesUp(wmd, wd, dir, es, e) then 1 else 0
  {
    if es.Cons? {
      MadeUpFirst(wmd, wd, dir, es);
      MadeUpMeaning(wmd, wd, dir, es.rest, e);
      LookupNames(es.rest, es.name);
    }
  }

  /** The event announces an entry that is neither special nor watched already. */
  predicate MakesUp(wmd: map<int, Watch>, wd: int, dir: Path, es: Entries, e: RawEvent) {
    e.wd == wd && !Watched(wmd, dir + [e.name])
    && match Lookup(es, e.name)
       case None => false
       case Some(node) => !node.Special? && e.isdir == node.Dir?
  }

  /** `process_IN_CREATE` before the default processing. */
  ghost function ProcessCreate(w: World, s: State, e: RawEvent): State
    requires e.wd in s.wmd
  {
    var watch := s.wmd[e.wd];
    var dir := watch.path + [e.name];
    if !e.isdir || !watch.auto_add || w.excluded(watch.exclude_filter, dir) then s
    else
      var (s1, wd) := AddWatch(w, s, dir, watch.mask, watch.proc_fun, watch.auto_add, watch.exclude_filter);
      match Find(w.root, dir)
      case Some(Dir(es)) => if wd > 0 then s1.(eventq := s1.eventq + MadeUp(s1.wmd, wd, dir, es)) else s1
      case _ => s1
  }

  /** One turn of the loop of `process_events`. */
  ghost function ProcessOne(w: World, s: State): State
    requires s.eventq != []
  {
    var e := s.eventq[0];
    var s1 := s.(eventq := s.eventq[1..]);
    if e.wd !in s.wmd then s1
    else
      var watch := s.wmd[e.wd];
      var s2 := ProcessCreate(w, s1, e);
      s2.(log := s2.log + [Delivery(watch.proc_fun, watch.path, e.name, e.isdir)])
  }

  /** The events made up for what is in a directory, none if it is gone by now. */
  ghost function AppearedIn(w: World, wmd: map<int, Watch>, wd: int, path: Path): seq<RawEvent> {
    match Find(w.root, path)
    case Some(Dir(es)) => MadeUp(wmd, wd, path, es)
    case _ => []
  }

  /** What `process_IN_CREATE` does to the watches and the queue, branch by branch. */
  lemma CreateEffect(w: World, s: State, e: RawEvent)
    requires e.wd in s.wmd && KeysConsistent(s)
    ensures var watch, t := s.wmd[e.wd], ProcessCreate(w, s, e);
            var path := watch.path + [e.name];
            && t.log == s.log
            && if !e.isdir || !watch.auto_add || w.excluded(watch.exclude_filter, path) || w.unwatchable(path) then
                 t == s
               else
                 exists wd | wd in t.wmd ::
                   && t.wmd[wd] == Watch(path, watch.mask + {"IN_CREATE"}, watch.proc_fun, true, watch.exclude_filter)
                   && (wd in s.wmd ==> s.wmd[wd].path == path) && t.wmd == s.wmd[wd := t.wmd[wd]]
                   && t.eventq == s.eventq + AppearedIn(w, t.wmd, wd, path)
  {
    var watch := s.wmd[e.wd];
    var path := watch.path + [e.name];
    if e.isdir && watch.auto_add && !w.excluded(watch.exclude_filter, path) && !w.unwatchable(path) {
      var (s1, wd) := AddWatch(w, s, path, watch.mask, watch.proc_fun, watch.auto_add, watch.exclude_filter);
      assert s1.wmd[wd] == Watch(path, watch.mask + {IN_CREATE}, watch.proc_fun, true, watch.exclude_filter);
    }
  }

  class Notifier {
    const w: World
    var wmd: map<int, Watch>
    var next_wd: int
    var eventq: seq<RawEvent>
    var log: seq<Delivery>

    ghost function Now(): State
      reads this
    {
      State(wmd, next_wd, eventq, log)
    }

    constructor (w: World, s: State)
      ensures this.w == w && Now() == s
    {
      this.w, wmd, next_wd, eventq, log := w, s.wmd, s.next_wd, s.eventq, s.log;
    }

    /** The search of `get_wd`; the descriptor is determined when paths are watched once. */
    method FindWd(path: Path) returns (r: Option<int>)
      requires forall a, b | a in wmd && b in wmd && wmd[a].path == wmd[b].path :: a == b
      ensures r == GetWd(wmd, path)
    {
      var items := wmd.Items;
      while items != {}
        invariant items <= wmd.Items
        invariant forall wd | wd in wmd && wmd[wd].path == path :: (wd, wmd[wd]) in items
        decreases |items|
      {
        var iwd :| iwd in items;
        assert iwd in wmd.Items && iwd.0 in wmd && wmd[iwd.0] == iwd.1;
        if iwd.1.path == path {
          ghost var g := GetWd(wmd, path);
          assert g.value in wmd && wmd[g.value].path == path && g.value == iwd.0;
          return Some(iwd.0);
        }
        items := items - {iwd};
      }
      r := None;
    }

    method AddWatchTo(path: Path, mask: set<Flag>, proc_fun: ProcFun, auto_add: bool, filter: Filter) returns (wd: int)
      requires KeysConsistent(Now())
      modifies this
      ensures (Now(), wd) == AddWatch(w, old(Now()), path, mask, proc_fun, auto_add, filter)
      ensures w.excluded(filter, path) ==> wmd == old(wmd) && wd == -2
      ensures !w.excluded(filter, path) && w.unwatchable(path) ==> wmd == old(wmd) && wd == -1
      ensures !w.excluded(filter, path) && !w.unwatchable(path) ==>
                && wd in wmd && wmd[wd].path == path
                && (wd in old(wmd) ==> old(wmd)[wd].path == path) && wmd == old(wmd)[wd := wmd[wd]]
                && wmd[wd].mask == (if auto_add then mask + {"IN_CREATE"} else mask)
                && wmd[wd].proc_fun == proc_fun && wmd[wd].auto_add == auto_add && wmd[wd].exclude_filter == filter
    {
      if w.excluded(filter, path) {
        return -2;
      }
      var flags := mask;
      if auto_add {
        flags := flags + {IN_CREATE};
      }
      if w.unwatchable(path) {
        return -1;
      }
      var known := FindWd(path);
      match known {
        case Some(k) => wd := k;
        case None =>
          wd := next_wd;
          next_wd := next_wd + 1;
      }
      wmd := wmd[wd := Watch(path, flags, proc_fun, auto_add, filter)];
    }

    method MakeUpEvents(wd: int, dir: Path, es: Entries)
      requires forall a, b | a in wmd && b in wmd && wmd[a].path == wmd[b].path :: a == b
      modifies this`eventq
      ensures eventq == old(eventq) + MadeUp(wmd, wd, dir, es)
    {
      var left := es;
      ghost var q := eventq;
      while left.Cons?
        invariant eventq + MadeUp(wmd, wd, dir, left) == q + MadeUp(wmd, wd, dir, es)
        decreases left
      {
        ghost var rest := MadeUp(wmd, wd, dir, left.rest);
        var known := FindWd(dir + [left.name]);
        if known.None? && !left.node.Special? {
          assert eventq + ([Create(wd, left.node.Dir?, left.name)] + rest) ==
              eventq + [Create(wd, left.node.Dir?, left.name)] + rest;
          eventq := eventq + [Create(wd, left.node.Dir?, left.name)];
        } else {
          assert [] + rest == rest;
        }
        left := left.rest;
      }
      assert eventq + [] == eventq;
    }

    method ProcessInCreate(e: RawEvent)
      requires e.wd in wmd && KeysConsistent(Now())
      modifies this
      ensures Now() == ProcessCreate(w, old(Now()), e)
    {
      if e.isdir {
        var watch := wmd[e.wd];
        var created_dir := watch.path + [e.name];
        if watch.auto_add && !w.excluded(watch.exclude_filter, created_dir) {
          ghost var s := Now();
          var wd := AddWatchTo(created_dir, watch.mask, watch.proc_fun, watch.auto_add, watch.exclude_filter);
          AddWatchConsistent(w, s, created_dir, watch.mask, watch.proc_fun, watch.auto_add, watch.exclude_filter);
          var found := Find(w.root, created_dir);
          if wd > 0 && found.Some? && found.value.Dir? {
            MakeUpEvents(wd, created_dir, found.value.entries);
          }
        }
      }
    }

    method ProcessFirst()
      requires eventq != [] && KeysConsistent(Now())
      modifies this
      ensures Now() == ProcessOne(w, old(Now()))
      // an event without a watch only leaves the queue
      ensures old(eventq)[0].wd !in old(wmd) ==> wmd == old(wmd) && eventq == old(eventq)[1..] && log == old(log)
      // every other one is delivered to the watch it came from
      ensures old(eventq)[0].wd in old(wmd) ==>
                var e, watch := old(eventq)[0], old(wmd)[old(eventq)[0].wd];
                log == old(log) + [Delivery(watch.proc_fun, watch.path, e.name, e.isdir)]
      // nothing is watched for a file, without auto_add, or where the filter or the kernel says no
      ensures old(eventq)[0].wd in old(wmd) ==>
                var e, watch := old(eventq)[0], old(wmd)[old(eventq)[0].wd];
                var path := watch.path + [e.name];
                !e.isdir || !watch.auto_add || w.excluded(watch.exclude_filter, path) || w.unwatchable(path) ==>
                  wmd == old(wmd) && eventq == old(eventq)[1..]
      // otherwise the new directory has a watch like that of its parent, and no other watch changed
      ensures old(eventq)[0].wd in old(wmd) ==>
                var e, watch := old(eventq)[0], old(wmd)[old(eventq)[0].wd];
                var path := watch.path + [e.name];
                e.isdir && watch.auto_add && !w.excluded(watch.exclude_filter, path) && !w.unwatchable(path) ==>
                  exists wd | wd in wmd ::
                    && wmd[wd] == Watch(path, watch.mask + {"IN_CREATE"}, watch.proc_fun, true, watch.exclude_filter)
                    && (wd in old(wmd) ==> old(wmd)[wd].path == path) && wmd == old(wmd)[wd := wmd[wd]]
                    && eventq == old(eventq)[1..] + AppearedIn(w, wmd, wd, path)
    {
      var e := eventq[0];
      eventq := eventq[1..];
      if e.wd !in wmd {
        return;
      }
      var watch := wmd[e.wd];
      ghost var s := Now();
      ProcessInCreate(e);
      CreateEffect(w, s, e);
      log := log + [Delivery(watch.proc_fun, watch.path, e.name, e.isdir)];
    }
  }

  /** Every path is watched once, and the kernel's next descriptor is new. */
  ghost predicate KeysConsistent(s: State) {
    && 0 < s.next_wd && (forall wd | wd in s.wmd :: 0 < wd < s.next_wd)
    && (forall a, b | a in s.wmd && b in s.wmd && s.wmd[a].path == s.wmd[b].path :: a == b)
  }

  lemma AddWatchConsistent(w: World, s: State, path: Path, mask: set<Flag>, proc_fun: ProcFun, auto_add: bool,
                           filter: Filter)
    requires KeysConsistent(s)
    ensures KeysConsistent(AddWatch(w, s, path, mask, proc_fun, auto_add, filter).0)
  {
  }

  // ---- What is to come out ----

  /** A file or directory that is about to be announced: where it is, and what it is. */
  datatype Item = Item(dir: Path, name: Name, node: Node)

  function Target(it: Item): Path {
    it.dir + [it.name]
  }

  function Size(node: Node): (n: nat)
    ensures n > 0
  {
    match node
    case Dir(es) => 1 + SizeEntries(es)
    case _ => 1
  }

  function SizeEntries(es: Entries): nat {
    match es
    case Nil => 0
    case Cons(_, node, rest) => Size(node) + SizeEntries(rest)
  }

  function SizeAll(items: seq<Item>): nat {
    if items == [] then 0 else Size(items[0].node) + SizeAll(items[1..])
  }

  /** The files and directories of a listing. */
  function Items(dir: Path, es: Entries): (items: seq<Item>)
    ensures SizeAll(items) <= SizeEntries(es)
  {
    match es
    case Nil => []
    case Cons(n, node, rest) =>
      if node.Special? then Items(dir, rest)
      else
        assert ([Item(dir, n, node)] + Items(dir, rest))[1..] == Items(dir, rest);
        [Item(dir, n, node)] + Items(dir, rest)
  }

  /** The settings that all watches of the subtree inherit. */
  datatype Settings = Settings(mask: set<Flag>, proc_fun: ProcFun, filter: Filter)

  /** The directory gets a watch. */
  predicate Entered(w: World, st: Settings, it: Item) {
    it.node.Dir? && !w.excluded(st.filter, Target(it)) && !w.unwatchable(Target(it))
  }

  /** The directories to be watched: those that are reached through entered directories only. */
  function Watches(w: World, st: Settings, it: Item): set<Path>
    decreases Size(it.node), 0, 0
  {
    if Entered(w, st, it) then {Target(it)} + WatchesAll(w, st, Items(Target(it), it.node.entries)) else {}
  }

  function WatchesAll(w: World, st: Settings, items: seq<Item>): set<Path>
    decreases SizeAll(items), 1, |items|
  {
    if items == [] then {} else Watches(w, st, items[0]) + WatchesAll(w, st, items[1..])
  }

  /** The events to be delivered: one for the item, and those for all that it makes appear. */
  function Deliveries(w: World, st: Settings, it: Item): multiset<Delivery>
    decreases Size(it.node), 0, 0
  {
    multiset{Delivery(st.proc_fun, it.dir, it.name, it.node.Dir?)}
    + if Entered(w, st, it) then DeliveriesAll(w, st, Items(Target(it), it.node.entries)) else multiset{}
  }

  function DeliveriesAll(w: World, st: Settings, items: seq<Item>): multiset<Delivery>
    decreases SizeAll(items), 1, |items|
  {
    if items == [] then multiset{} else Deliveries(w, st, items[0]) + DeliveriesAll(w, st, items[1..])
  }

  lemma {:induction false} AllConcat(w: World, st: Settings, a: seq<Item>, b: seq<Item>)
    ensures WatchesAll(w, st, a + b) == WatchesAll(w, st, a) + WatchesAll(w, st, b)
    ensures DeliveriesAll(w, st, a + b) == DeliveriesAll(w, st, a) + DeliveriesAll(w, st, b)
    ensures SizeAll(a + b) == SizeAll(a) + SizeAll(b)
    decreases |a|
  {
    if a == [] {
      assert a + b == b;
    } else {
      assert (a + b)[1..] == a[1..] + b;
      AllConcat(w, st, a[1..], b);
    }
  }

  // ---- The invariant of the draining loop ----

  predicate Below(p: Path, q: Path) {
    p < q
  }

  predicate Apart(p: Path, q: Path) {
    !(p <= q) && !(q <= p)
  }

  ghost predicate Inherited(watch: Watch, st: Settings) {
    watch.auto_add && watch.mask + {IN_CREATE} == st.mask && watch.proc_fun == st.proc_fun &&
        watch.exclude_filter == st.filter
  }

  /** The event announces the item, and the item is what the tree has there. */
  ghost predicate Announces(w: World, s: State, st: Settings, e: RawEvent, it: Item) {
    && e.name == it.name && e.isdir == it.node.Dir? && !it.node.Special?
    && e.wd in s.wmd && s.wmd[e.wd].path == it.dir && Inherited(s.wmd[e.wd], st)
    && Find(w.root, Target(it)) == Some(it.node) && WellFormed(it.node)
  }

  ghost predicate NothingBelow(s: State, p: Path) {
    forall wd | wd in s.wmd :: !Below(p, s.wmd[wd].path)
  }

  ghost predicate QueueInv(w: World, s: State, st: Settings, items: seq<Item>) {
    && |items| == |s.eventq|
    && (forall i | 0 <= i < |items| :: Announces(w, s, st, s.eventq[i], items[i]) && NothingBelow(s, Target(items[i])))
    && (forall i, j | 0 <= i < j < |items| :: Apart(Target(items[i]), Target(items[j])))
  }

  /** The watches are those of the start, and those on `added` with the inherited settings. */
  ghost predicate WatchInv(s0: State, s: State, st: Settings, added: set<Path>) {
    && KeysConsistent(s)
    && (forall wd | wd in s.wmd ::
          if s.wmd[wd].path in added then Inherited(s.wmd[wd], st) && s.wmd[wd].mask == st.mask
          else wd in s0.wmd && s.wmd[wd] == s0.wmd[wd])
    && (forall wd | wd in s0.wmd :: wd in s.wmd && s.wmd[wd].path == s0.wmd[wd].path)
    && (forall p | p in added :: exists wd | wd in s.wmd :: s.wmd[wd].path == p)
  }

  lemma {:induction false} FindChild(root: Node, d: Path, n: Name)
    requires Find(root, d).Some? && Find(root, d).value.Dir?
    ensures Find(root, d + [n]) == Lookup(Find(root, d).value.entries, n)
    decreases |d|
  {
    if d == [] {
      assert (d + [n])[1..] == [];
    } else {
      assert (d + [n])[1..] == d[1..] + [n];
      FindChild(Lookup(root.entries, d[0]).value, d[1..], n);
    }
  }

  /** The items of a listing carry the entries, under distinct names. */
  lemma {:induction false} ItemsOf(dir: Path, es: Entries)
    requires WellFormedEntries(es)
    ensures forall i | 0 <= i < |Items(dir, es)| ::
              var it := Items(dir, es)[i];
              it.dir == dir && it.name in NamesIn(es) && Lookup(es, it.name) == Some(it.node) && WellFormed(it.node)
              && !it.node.Special?
    ensures forall i, j | 0 <= i < j < |Items(dir, es)| :: Items(dir, es)[i].name != Items(dir, es)[j].name
  {
    match es
    case Nil =>
    case Cons(n, node, rest) => ItemsOf(dir, rest);
  }

  function EventsFor(wd: int, items: seq<Item>): seq<RawEvent> {
    if items == [] then [] else [Create(wd, items[0].node.Dir?, items[0].name)] + EventsFor(wd, items[1..])
  }

  lemma {:induction false} EventsForAt(wd: int, items: seq<Item>)
    ensures |EventsFor(wd, items)| == |items|
    ensures forall i | 0 <= i < |items| :: EventsFor(wd, items)[i] == Create(wd, items[i].node.Dir?, items[i].name)
  {
    if items != [] {
      EventsForAt(wd, items[1..]);
    }
  }

  /** With nothing watched below the directory, an event is made up for every item. */
  lemma {:induction false} MadeUpAll(s: State, wd: int, dir: Path, es: Entries)
    requires NothingBelow(s, dir)
    ensures MadeUp(s.wmd, wd, dir, es) == EventsFor(wd, Items(dir, es))
  {
    match es
    case Nil =>
    case Cons(n, node, rest) =>
      MadeUpAll(s, wd, dir, rest);
      assert Below(dir, dir + [n]);
      if !node.Special? {
        assert Items(dir, es)[1..] == Items(dir, rest);
      }
  }

  // ---- One event ----

  /** The state after a directory got its watch, before events are made up. */
  ghost function Added(w: World, s: State, st: Settings, e: RawEvent, it: Item): (State, int)
    requires e.wd in s.wmd
  {
    var watch := s.wmd[e.wd];
    AddWatch(w, s, Target(it), watch.mask, watch.proc_fun, watch.auto_add, watch.exclude_filter)
  }

  lemma AddedWatch(w: World, s: State, st: Settings, e: RawEvent, it: Item)
    requires Announces(w, s, st, e, it) && Entered(w, st, it) && KeysConsistent(s)
    ensures var (s1, wd) := Added(w, s, st, e, it);
            && wd > 0 && KeysConsistent(s1) && s1.eventq == s.eventq && s1.log == s.log
            && s1.wmd == s.wmd[wd := Watch(Target(it), st.mask, st.proc_fun, true, st.filter)]
            && (wd in s.wmd ==> s.wmd[wd].path == Target(it))
            && (wd !in s.wmd ==> forall k | k in s.wmd :: s.wmd[k].path != Target(it))
  {
    var watch := s.wmd[e.wd];
    AddWatchConsistent(w, s, Target(it), watch.mask, watch.proc_fun, watch.auto_add, watch.exclude_filter);
  }

  lemma AddedKeepsWatchInv(s0: State, s: State, s1: State, st: Settings, added: set<Path>, wd: int, target: Path)
    requires WatchInv(s0, s, st, added) && KeysConsistent(s1)
    requires s1.wmd == s.wmd[wd := Watch(target, st.mask, st.proc_fun, true, st.filter)]
    requires wd in s.wmd ==> s.wmd[wd].path == target
    requires wd !in s.wmd ==> forall k | k in s.wmd :: s.wmd[k].path != target
    requires IN_CREATE in st.mask
    ensures WatchInv(s0, s1, st, added + {target})
  {
    forall p | p in added + {target}
      ensures exists k | k in s1.wmd :: s1.wmd[k].path == p
    {
      if p != target {
        var k :| k in s.wmd && s.wmd[k].path == p;
        assert k != wd && k in s1.wmd && s1.wmd[k].path == p;
      } else {
        assert s1.wmd[wd].path == p;
      }
    }
    forall k | k in s1.wmd
      ensures if s1.wmd[k].path in added + {target} then Inherited(s1.wmd[k], st) && s1.wmd[k].mask == st.mask
              else k in s0.wmd && s1.wmd[k] == s0.wmd[k]
    {
      if k != wd {
        assert s1.wmd[k] == s.wmd[k];
        assert wd in s.wmd && s.wmd[wd].path == s.wmd[k].path ==> wd == k;
        assert s.wmd[k].path != target;
      } else {
        assert st.mask + {IN_CREATE} == st.mask;
      }
    }
  }

  /** The items still in the queue are as before, if another directory got a watch. */
  lemma AddedKeepsItem(w: World, s: State, s1: State, st: Settings, wd: int, target: Path, e: RawEvent, it: Item)
    requires Announces(w, s, st, e, it) && NothingBelow(s, Target(it)) && Apart(target, Target(it))
    requires s1.wmd == s.wmd[wd := Watch(target, st.mask, st.proc_fun, true, st.filter)]
    requires wd in s.wmd ==> s.wmd[wd].path == target
    ensures Announces(w, s1, st, e, it) && NothingBelow(s1, Target(it))
  {
    assert it.dir <= Target(it);
    assert it.dir != target;
    assert e.wd != wd;
  }

  /** The items of the new directory are ready to be announced. */
  lemma NewItems(w: World, s: State, s1: State, st: Settings, wd: int, it: Item, i: nat)
    requires Find(w.root, Target(it)) == Some(it.node) && it.node.Dir? && WellFormed(it.node)
    requires NothingBelow(s, Target(it)) && IN_CREATE in st.mask
    requires s1.wmd == s.wmd[wd := Watch(Target(it), st.mask, st.proc_fun, true, st.filter)]
    requires i < |Items(Target(it), it.node.entries)|
    ensures var items := Items(Target(it), it.node.entries);
            && Announces(w, s1, st, Create(wd, items[i].node.Dir?, items[i].name), items[i])
            && NothingBelow(s1, Target(items[i]))
  {
    var items := Items(Target(it), it.node.entries);
    ItemsOf(Target(it), it.node.entries);
    FindChild(w.root, Target(it), items[i].name);
    assert st.mask + {IN_CREATE} == st.mask;
    forall k | k in s1.wmd
      ensures !Below(Target(items[i]), s1.wmd[k].path)
    {
      if k != wd {
        assert !Below(Target(it), s.wmd[k].path);
        assert Target(it) <= Target(items[i]);
      }
    }
  }

  lemma ApartChildren(p: Path, q: Path, n: Name)
    requires Apart(p, q)
    ensures Apart(p + [n], q)
  {
    PrefixOfChild(p, q, n);
  }

  lemma PrefixOfChild(p: Path, q: Path, n: Name)
    ensures q <= p + [n] <==> q <= p || q == p + [n]
    ensures p + [n] <= q ==> p <= q
  {
    if q <= p + [n] && |q| <= |p| {
      assert q == (p + [n])[..|q|] && (p + [n])[..|q|] == p[..|q|];
    }
    if p + [n] <= q {
      assert p == (p + [n])[..|p|] && p == q[..|p|];
    }
  }

  lemma ApartSiblings(p: Path, m: Name, n: Name)
    requires m != n
    ensures Apart(p + [m], p + [n])
  {
    assert (p + [m])[|p|] == m && (p + [n])[|p|] == n;
  }

  /** The items in the queue after the first has been processed. */
  function NextItems(w: World, st: Settings, items: seq<Item>): seq<Item>
    requires items != []
  {
    items[1..] + if Entered(w, st, items[0]) then Items(Target(items[0]), items[0].node.entries) else []
  }

  function NextAdded(w: World, st: Settings, items: seq<Item>, added: set<Path>): set<Path>
    requires items != []
  {
    if Entered(w, st, items[0]) then added + {Target(items[0])} else added
  }

  lemma NextApart(w: World, st: Settings, items: seq<Item>)
    requires items != [] && WellFormed(items[0].node)
    requires forall i, j | 0 <= i < j < |items| :: Apart(Target(items[i]), Target(items[j]))
    ensures forall i, j | 0 <= i < j < |NextItems(w, st, items)| ::
              Apart(Target(NextItems(w, st, items)[i]), Target(NextItems(w, st, items)[j]))
  {
    var it, rest := items[0], items[1..];
    if Entered(w, st, it) {
      var children := Items(Target(it), it.node.entries);
      ItemsOf(Target(it), it.node.entries);
      forall i, j | 0 <= i < j < |rest + children|
        ensures Apart(Target((rest + children)[i]), Target((rest + children)[j]))
      {
        if j < |rest| {
          assert Apart(Target(items[i + 1]), Target(items[j + 1]));
        } else if i < |rest| {
          ApartChildren(Target(it), Target(rest[i]), children[j - |rest|].name);
        } else {
          ApartSiblings(Target(it), children[i - |rest|].name, children[j - |rest|].name);
        }
      }
    }
  }

  /** What one event does when its directory is entered. */
  lemma EnteredStep(w: World, s: State, st: Settings, items: seq<Item>)
    requires items != [] && QueueInv(w, s, st, items) && KeysConsistent(s) && Entered(w, st, items[0])
    ensures var it := items[0]; var t := ProcessOne(w, s);
            var (s1, wd) := Added(w, s, st, s.eventq[0], it);
            && t.wmd == s1.wmd && t.next_wd == s1.next_wd
            && t.eventq == s.eventq[1..] + EventsFor(wd, Items(Target(it), it.node.entries))
            && t.log == s.log + [Delivery(st.proc_fun, it.dir, it.name, true)]
  {
    var it, e := items[0], s.eventq[0];
    assert Announces(w, s, st, e, it) && NothingBelow(s, Target(it));
    AddedWatch(w, s, st, e, it);
    var (s1, wd) := Added(w, s, st, e, it);
    forall k | k in s1.wmd
      ensures !Below(Target(it), s1.wmd[k].path)
    {
    }
    MadeUpAll(s1, wd, Target(it), it.node.entries);
  }

  lemma OtherStep(w: World, s: State, st: Settings, items: seq<Item>)
    requires items != [] && QueueInv(w, s, st, items) && !Entered(w, st, items[0])
    ensures var it := items[0];
            ProcessOne(w, s) ==
            s.(eventq := s.eventq[1..], log := s.log + [Delivery(st.proc_fun, it.dir, it.name, it.node.Dir?)])
  {
    assert Announces(w, s, st, s.eventq[0], items[0]);
  }

  lemma StepQueueInv(w: World, s: State, st: Settings, items: seq<Item>)
    requires items != [] && QueueInv(w, s, st, items) && KeysConsistent(s) && IN_CREATE in st.mask
    ensures QueueInv(w, ProcessOne(w, s), st, NextItems(w, st, items))
  {
    var it, e, t, items' := items[0], s.eventq[0], ProcessOne(w, s), NextItems(w, st, items);
    assert Announces(w, s, st, e, it) && NothingBelow(s, Target(it));
    NextApart(w, st, items);
    if Entered(w, st, it) {
      EnteredStep(w, s, st, items);
      AddedWatch(w, s, st, e, it);
      var (s1, wd) := Added(w, s, st, e, it);
      var children := Items(Target(it), it.node.entries);
      EventsForAt(wd, children);
      forall i | 0 <= i < |items'|
        ensures Announces(w, t, st, t.eventq[i], items'[i]) && NothingBelow(t, Target(items'[i]))
      {
        if i < |items| - 1 {
          assert Announces(w, s, st, s.eventq[i + 1], items[i + 1]) && NothingBelow(s, Target(items[i + 1]));
          AddedKeepsItem(w, s, s1, st, wd, Target(it), s.eventq[i + 1], items[i + 1]);
        } else {
          NewItems(w, s, s1, st, wd, it, i - (|items| - 1));
        }
      }
    } else {
      OtherStep(w, s, st, items);
      assert items' == items[1..];
      forall i | 0 <= i < |items'|
        ensures Announces(w, t, st, t.eventq[i], items'[i]) && NothingBelow(t, Target(items'[i]))
      {
        assert Announces(w, s, st, s.eventq[i + 1], items[i + 1]) && NothingBelow(s, Target(items[i + 1]));
      }
    }
  }

  lemma StepWatchInv(w: World, s0: State, s: State, st: Settings, items: seq<Item>, added: set<Path>)
    requires items != [] && QueueInv(w, s, st, items) && WatchInv(s0, s, st, added) && IN_CREATE in st.mask
    ensures WatchInv(s0, ProcessOne(w, s), st, NextAdded(w, st, items, added))
  {
    assert Announces(w, s, st, s.eventq[0], items[0]);
    if Entered(w, st, items[0]) {
      EnteredStep(w, s, st, items);
      AddedWatch(w, s, st, s.eventq[0], items[0]);
      var (s1, wd) := Added(w, s, st, s.eventq[0], items[0]);
      AddedKeepsWatchInv(s0, s, s1, st, added, wd, Target(items[0]));
    } else {
      OtherStep(w, s, st, items);
    }
  }

  lemma UnfoldItem(w: World, st: Settings, it: Item)
    ensures var children := if Entered(w, st, it) then Items(Target(it), it.node.entries) else [];
            && Watches(w, st, it) == (if Entered(w, st, it) then {Target(it)} else {}) + WatchesAll(w, st, children)
            && Deliveries(w, st, it) ==
               multiset{Delivery(st.proc_fun, it.dir, it.name, it.node.Dir?)} + DeliveriesAll(w, st, children)
            && SizeAll(children) < Size(it.node)
  {
  }

  /** The sums over the queue, with the first item taken apart. */
  lemma Unfold(w: World, st: Settings, items: seq<Item>)
    requires items != []
    ensures var it := items[0]; var items' := NextItems(w, st, items);
            && WatchesAll(w, st, items) == (if Entered(w, st, it) then {Target(it)} else {}) + WatchesAll(w, st, items')
            && DeliveriesAll(w, st, items) ==
               multiset{Delivery(st.proc_fun, it.dir, it.name, it.node.Dir?)} + DeliveriesAll(w, st, items')
            && SizeAll(items') < SizeAll(items)
  {
    var it, rest := items[0], items[1..];
    var children := if Entered(w, st, it) then Items(Target(it), it.node.entries) else [];
    UnfoldItem(w, st, it);
    AllConcat(w, st, rest, children);
    Regroup(if Entered(w, st, it) then {Target(it)} else {}, WatchesAll(w, st, children), WatchesAll(w, st, rest));
    RegroupBag(multiset{Delivery(st.proc_fun, it.dir, it.name, it.node.Dir?)},
        DeliveriesAll(w, st, children), DeliveriesAll(w, st, rest));
  }

  lemma Regroup(t: set<Path>, c: set<Path>, r: set<Path>)
    ensures t + c + r == t + (r + c)
  {
  }

  lemma RegroupBag(t: multiset<Delivery>, c: multiset<Delivery>, r: multiset<Delivery>)
    ensures t + c + r == t + (r + c)
  {
  }

  lemma StepLog(w: World, s: State, st: Settings, items: seq<Item>)
    requires items != [] && QueueInv(w, s, st, items) && KeysConsistent(s)
    ensures var it := items[0];
            ProcessOne(w, s).log == s.log + [Delivery(st.proc_fun, it.dir, it.name, it.node.Dir?)]
  {
    if Entered(w, st, items[0]) {
      EnteredStep(w, s, st, items);
    } else {
      OtherStep(w, s, st, items);
    }
  }

  // ---- The whole loop ----

  /** The state before: one event for a new directory under an `auto_add` watch, nothing watched below it. */
  ghost predicate Start(w: World, s: State, e: RawEvent, it: Item) {
    && KeysConsistent(s) && s.eventq == [e] && e.wd in s.wmd && s.wmd[e.wd].auto_add
    && e == Create(e.wd, true, it.name) && it.dir == s.wmd[e.wd].path
    && it.node.Dir? && Find(w.root, Target(it)) == Some(it.node) && WellFormed(it.node)
    && NothingBelow(s, Target(it))
  }

  ghost function SettingsOf(watch: Watch): Settings {
    Settings(watch.mask + {IN_CREATE}, watch.proc_fun, watch.exclude_filter)
  }

  ghost predicate DrainInv(w: World, s0: State, s: State, st: Settings, it: Item, items: seq<Item>, added: set<Path>) {
    && QueueInv(w, s, st, items) && WatchInv(s0, s, st, added) && IN_CREATE in st.mask
    && added + WatchesAll(w, st, items) == Watches(w, st, it)
    && multiset(s.log) + DeliveriesAll(w, st, items) == multiset(s0.log) + Deliveries(w, st, it)
  }

  lemma StartInv(w: World, s: State, e: RawEvent, it: Item)
    requires Start(w, s, e, it)
    ensures DrainInv(w, s, s, SettingsOf(s.wmd[e.wd]), it, [it], {})
  {
    assert [it][1..] == [];
  }

  lemma DrainStep(w: World, s0: State, s: State, st: Settings, it: Item, items: seq<Item>, added: set<Path>)
    requires DrainInv(w, s0, s, st, it, items, added) && s.eventq != []
    ensures DrainInv(w, s0, ProcessOne(w, s), st, it, NextItems(w, st, items), NextAdded(w, st, items, added))
    ensures SizeAll(NextItems(w, st, items)) < SizeAll(items)
  {
    StepQueueInv(w, s, st, items);
    StepWatchInv(w, s0, s, st, items, added);
    StepLog(w, s, st, items);
    Unfold(w, st, items);
    var d := Delivery(st.proc_fun, items[0].dir, items[0].name, items[0].node.Dir?);
    assert multiset(s.log + [d]) == multiset(s.log) + multiset{d};
  }

  /**
   `process_events`, started with one creation event of a directory: the queue drains.  In the
   end exactly the directories that are reached through directories neither excluded nor
   refused have a watch with the inherited settings, the other watches are as before, and each
   file and directory in an entered directory has been announced exactly once.
   */
  method ProcessEvents(n: Notifier, ghost e: RawEvent, ghost it: Item)
    requires Start(n.w, n.Now(), e, it)
    modifies n
    ensures n.eventq == []
    ensures WatchInv(old(n.Now()), n.Now(), SettingsOf(old(n.wmd)[e.wd]),
            Watches(n.w, SettingsOf(old(n.wmd)[e.wd]), it))
    ensures multiset(n.log) == multiset(old(n.log)) + Deliveries(n.w, SettingsOf(old(n.wmd)[e.wd]), it)
  {
    ghost var s0, st := n.Now(), SettingsOf(n.wmd[e.wd]);
    ghost var items, added: set<Path> := [it], {};
    StartInv(n.w, s0, e, it);
    while n.eventq != []
      invariant DrainInv(n.w, s0, n.Now(), st, it, items, added)
      decreases SizeAll(items)
    {
      DrainStep(n.w, s0, n.Now(), st, it, items, added);
      items, added := NextItems(n.w, st, items), NextAdded(n.w, st, items, added);
      n.ProcessFirst();
    }
    assert items == [];
  }

  // ---- What the sums mean ----

  /** A directory of the tree that is neither excluded nor refused. */
  ghost predicate Enterable(w: World, st: Settings, p: Path) {
    Find(w.root, p).Some? && Find(w.root, p).value.Dir? && !w.excluded(st.filter, p) && !w.unwatchable(p)
  }

  /** `p` lies at or below `base`, and every directory on the way is enterable. */
  ghost predicate Reached(w: World, st: Settings, base: Path, p: Path) {
    base <= p && forall k | |base| <= k <= |p| :: Enterable(w, st, p[..k])
  }

  /** The delivery announces the item, or something in a directory reached through it. */
  ghost predicate AnnouncedBy(w: World, st: Settings, it: Item, d: Delivery) {
    && d.proc_fun == st.proc_fun
    && (d == Delivery(st.proc_fun, it.dir, it.name, it.node.Dir?)
        || (Reached(w, st, Target(it), d.path)
            && Find(w.root, d.path + [d.name]).Some?
            && var node := Find(w.root, d.path + [d.name]).value; !node.Special? && node.Dir? == d.isdir))
  }

  ghost predicate Located(w: World, it: Item) {
    Find(w.root, Target(it)) == Some(it.node) && WellFormed(it.node) && !it.node.Special?
  }

  /** The part of a listing from some entry on. */
  ghost predicate PartOf(w: World, dir: Path, es: Entries) {
    match es
    case Nil => true
    case Cons(n, node, rest) =>
      n !in NamesIn(rest) && WellFormed(node) && WellFormedEntries(rest) && Find(w.root, dir + [n]) == Some(node) &&
          PartOf(w, dir, rest)
  }

  lemma {:induction false} WholeListing(w: World, dir: Path, all: Entries, es: Entries)
    requires Find(w.root, dir) == Some(Dir(all)) && WellFormedEntries(es)
    requires forall n | n in NamesIn(es) :: Lookup(all, n) == Lookup(es, n)
    ensures PartOf(w, dir, es)
    decreases es
  {
    match es
    case Nil =>
    case Cons(n, node, rest) =>
      FindChild(w.root, dir, n);
      forall m | m in NamesIn(rest)
        ensures Lookup(all, m) == Lookup(rest, m)
      {
        assert m != n;
      }
      WholeListing(w, dir, all, rest);
  }

  lemma ReachedStart(w: World, st: Settings, base: Path, p: Path)
    requires Reached(w, st, base, p)
    ensures Enterable(w, st, base)
    ensures |p| > |base| ==> Enterable(w, st, base + [p[|base|]])
  {
    assert p[..|base|] == base;
    assert |p| > |base| ==> p[..|base| + 1] == base + [p[|base|]];
  }

  lemma ReachedItself(w: World, st: Settings, p: Path)
    requires Enterable(w, st, p)
    ensures Reached(w, st, p, p)
  {
    assert p[..|p|] == p;
  }

  lemma ReachedNext(w: World, st: Settings, base: Path, n: Name, p: Path)
    requires Enterable(w, st, base)
    ensures Reached(w, st, base + [n], p) <==> Reached(w, st, base, p) && |p| > |base| && p[|base|] == n
  {
    if Reached(w, st, base + [n], p) {
      assert p[..|base| + 1] == base + [n];
      assert p[|base|] == (base + [n])[|base|];
      assert p[..|base|] == base;
    }
    if Reached(w, st, base, p) && |p| > |base| && p[|base|] == n {
      assert p[..|base| + 1] == base + [n];
    }
  }

  /** The directories to be watched are those that are reached. */
  lemma {:induction false} WatchesMeaning(w: World, st: Settings, it: Item, p: Path)
    requires Located(w, it)
    ensures p in Watches(w, st, it) <==> Reached(w, st, Target(it), p)
    decreases Size(it.node), 0
  {
    UnfoldItem(w, st, it);
    var t := Target(it);
    if Entered(w, st, it) {
      assert Enterable(w, st, t);
      WholeListing(w, t, it.node.entries, it.node.entries);
      WatchesMeaningAll(w, st, t, it.node.entries, p);
      if p == t {
        ReachedItself(w, st, t);
      } else if Reached(w, st, t, p) {
        ReachedStart(w, st, t, p);
        FindChild(w.root, t, p[|t|]);
        LookupNames(it.node.entries, p[|t|]);
      }
    } else if Reached(w, st, t, p) {
      ReachedStart(w, st, t, p);
    }
  }

  lemma {:induction false} LookupNames(es: Entries, n: Name)
    ensures Lookup(es, n).Some? <==> n in NamesIn(es)
  {
    match es
    case Nil =>
    case Cons(_, _, rest) => LookupNames(rest, n);
  }

  lemma {:induction false} WatchesMeaningAll(w: World, st: Settings, dir: Path, es: Entries, p: Path)
    requires Enterable(w, st, dir) && PartOf(w, dir, es)
    ensures p in WatchesAll(w, st, Items(dir, es)) <==>
            Reached(w, st, dir, p) && |p| > |dir| && p[|dir|] in NamesIn(es)
    decreases SizeEntries(es), 1
  {
    match es
    case Nil =>
    case Cons(n, node, rest) =>
      WatchesMeaningAll(w, st, dir, rest, p);
      ReachedNext(w, st, dir, n, p);
      if node.Special? {
        if Reached(w, st, dir + [n], p) {
          ReachedStart(w, st, dir + [n], p);
        }
      } else {
        var it := Item(dir, n, node);
        WatchesMeaning(w, st, it, p);
        assert Items(dir, es)[1..] == Items(dir, rest);
      }
  }

  /** Everything in the subtree is announced once, and nothing else is. */
  lemma {:induction false} DeliveredOnce(w: World, st: Settings, it: Item, d: Delivery)
    requires Located(w, it)
    ensures Deliveries(w, st, it)[d] == if AnnouncedBy(w, st, it, d) then 1 else 0
    decreases Size(it.node), 0
  {
    UnfoldItem(w, st, it);
    var t := Target(it);
    if Entered(w, st, it) {
      assert Enterable(w, st, t);
      WholeListing(w, t, it.node.entries, it.node.entries);
      DeliveredOnceAll(w, st, t, it.node.entries, d);
      if AnnouncedBelow(w, st, t, d) {
        FindChild(w.root, t, StepName(t, d));
        ReachedStart(w, st, t, d.path);
        assert |d.path| <= |t| ==> d.path == t;
        LookupNames(it.node.entries, StepName(t, d));
      }
    } else if Reached(w, st, t, d.path) {
      ReachedStart(w, st, t, d.path);
    }
  }

  /** The delivery announces something below the directory. */
  ghost predicate AnnouncedBelow(w: World, st: Settings, dir: Path, d: Delivery) {
    && d.proc_fun == st.proc_fun && Reached(w, st, dir, d.path)
    && Find(w.root, d.path + [d.name]).Some?
    && var node := Find(w.root, d.path + [d.name]).value; !node.Special? && node.Dir? == d.isdir
  }

  /** The entry of the directory through which what is delivered is found. */
  function StepName(dir: Path, d: Delivery): Name {
    if |d.path| > |dir| then d.path[|dir|] else d.name
  }

  lemma AnnouncedStep(w: World, st: Settings, dir: Path, n: Name, node: Node, d: Delivery)
    requires Enterable(w, st, dir) && Find(w.root, dir + [n]) == Some(node)
    ensures (!node.Special? && AnnouncedBy(w, st, Item(dir, n, node), d)) <==>
            AnnouncedBelow(w, st, dir, d) && StepName(dir, d) == n
  {
    ReachedNext(w, st, dir, n, d.path);
    ReachedItself(w, st, dir);
    if AnnouncedBelow(w, st, dir, d) {
      ReachedStart(w, st, dir, d.path);
      assert |d.path| <= |dir| ==> d.path == dir;
    }
  }

  lemma {:induction false} DeliveredOnceAll(w: World, st: Settings, dir: Path, es: Entries, d: Delivery)
    requires Enterable(w, st, dir) && PartOf(w, dir, es)
    ensures DeliveriesAll(w, st, Items(dir, es))[d] ==
            if AnnouncedBelow(w, st, dir, d) && StepName(dir, d) in NamesIn(es) then 1 else 0
    decreases SizeEntries(es), 1
  {
    match es
    case Nil =>
    case Cons(n, node, rest) =>
      DeliveredOnceAll(w, st, dir, rest, d);
      AnnouncedStep(w, st, dir, n, node, d);
      if !node.Special? {
        DeliveredOnce(w, st, Item(dir, n, node), d);
        assert Items(dir, es)[1..] == Items(dir, rest);
      }
  }
}
