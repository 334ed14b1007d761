/**
 The copy-on-write dictionary of BitBake.

 Every dictionary is a level of an inheritance chain.  Python stores a binding as a class
 attribute: a plain value under its key, a mutable one under the key with a suffix.  Reading
 searches the plain name through the whole chain before the suffixed one, and copies an
 inherited mutable value into the current level before handing it out for change.
 */
module CowDict {
  import opened Wrappers

  type Key = string
  type Contents = seq<string>

  const MUTABLE := "__mutable__"

  /**
   A Python value.  A mutable one is known by its identity.  The marker of a deleted key is
   `tuple()`, which is the one empty tuple of the interpreter; storing an empty tuple is
   therefore the same as deleting.
   */
  datatype Value = EmptyTuple | Atom(atom: string) | Ref(addr: nat)

  /** A value as the user writes it; a mutable one is created at the assignment. */
  datatype NewValue = NewEmpty | NewAtom(atom: string) | NewData(contents: Contents)

  /** What an observer sees of a binding. */
  datatype Item = PlainItem(atom: string) | DataItem(contents: Contents)

  /** One class object: its base class, and its own `__dict__`. */
  datatype Level = Level(parent: Option<nat>, attrs: map<string, Value>)

  /** All class objects in the order of their creation, and all mutable objects. */
  datatype State = State(levels: seq<Level>, boxes: seq<Contents>)

  predicate IsMutableName(n: string) {
    |n| >= |MUTABLE| && n[|n| - |MUTABLE|..] == MUTABLE
  }

  /** The attributes of the metaclass without leading underscores, which `getattr` finds behind the chain. */
  const METACLASS_NAMES: seq<Key> := ["cow", "copy", "has_key", "iter", "iterkeys", "itervalues", "iteritems", "mro"]

  /** Keys that do not clash with the names the implementation uses itself. */
  predicate CleanKey(k: Key) {
    !IsMutableName(k) && !IsSpecial(k) && k !in METACLASS_NAMES
  }

  /** `startswith("__")` */
  predicate IsSpecial(n: string) {
    |n| >= 2 && n[..2] == "__"
  }

  lemma MutableName(k: Key)
    ensures IsMutableName(k + MUTABLE)
    ensures (k + MUTABLE)[..|k + MUTABLE| - |MUTABLE|] == k
    ensures forall k' :: k' + MUTABLE == k + MUTABLE ==> k' == k
  {
    assert (k + MUTABLE)[|k|..] == MUTABLE;
    forall k' | k' + MUTABLE == k + MUTABLE
      ensures k' == k
    {
      assert (k' + MUTABLE)[..|k'|] == k' && (k + MUTABLE)[..|k|] == k;
    }
  }

  // ---- Reading ----

  predicate Linked(s: State) {
    forall i | 0 <= i < |s.levels| :: s.levels[i].parent.Some? ==> s.levels[i].parent.value < i
  }

  /** `d` is `i` or inherits from it. */
  predicate InChain(s: State, d: nat, i: nat)
    requires Linked(s) && d < |s.levels|
  {
    d == i || (s.levels[d].parent.Some? && InChain(s, s.levels[d].parent.value, i))
  }

  /** `getattr`: the binding of the nearest level of the chain. */
  function GetAttr(s: State, d: nat, name: string): Option<Value>
    requires Linked(s) && d < |s.levels|
  {
    if name in s.levels[d].attrs then Some(s.levels[d].attrs[name])
    else if s.levels[d].parent.Some? then GetAttr(s, s.levels[d].parent.value, name)
    else None
  }

  /** The value that reading `key` finds, before any copying. */
  function Lookup(s: State, d: nat, key: Key): Option<Value>
    requires Linked(s) && d < |s.levels|
  {
    match GetAttr(s, d, key)
    case Some(EmptyTuple) => None
    case Some(v) => Some(v)
    case None => GetAttr(s, d, key + MUTABLE)
  }

  /** What an observer sees under `key`; `None` where reading raises KeyError. */
  function View(s: State, d: nat, key: Key): Option<Item>
    requires Linked(s) && d < |s.levels|
  {
    match Lookup(s, d, key)
    case None => None
    case Some(EmptyTuple) => None
    case Some(Atom(a)) => Some(PlainItem(a))
    case Some(Ref(r)) => if r < |s.boxes| then Some(DataItem(s.boxes[r])) else None
  }

  /** The key that a class attribute belongs to. */
  function KeyOf(n: string): Key {
    if IsMutableName(n) then n[..|n| - |MUTABLE|] else n
  }

  predicate TypedBinding(s: State, n: string, v: Value) {
    CleanKey(KeyOf(n)) && (v.Ref? <==> IsMutableName(n)) && (v.Ref? ==> v.addr < |s.boxes|)
  }

  predicate Typed(s: State) {
    forall i, n | 0 <= i < |s.levels| && n in s.levels[i].attrs :: TypedBinding(s, n, s.levels[i].attrs[n])
  }

  predicate BoundOnce(s: State) {
    forall i, n, j, m | 0 <= i < |s.levels| && n in s.levels[i].attrs && s.levels[i].attrs[n].Ref?
                        && 0 <= j < |s.levels| && m in s.levels[j].attrs ::
      s.levels[i].attrs[n] == s.levels[j].attrs[m] ==> i == j && n == m
  }

  /** Suffixed names, and only they, hold mutable values; every mutable value is bound once. */
  predicate Valid(s: State) {
    Linked(s) && Typed(s) && BoundOnce(s)
  }

  // ---- Operations ----

  datatype Op =
    | Copy(i: nat)
    | Set(i: nat, key: Key, value: NewValue)
    | Delete(i: nat, key: Key)
    | Revert(i: nat, key: Key)
    | Read(i: nat, key: Key)                        // d[key], which may copy
    | Change(i: nat, key: Key, contents: Contents)  // d[key] followed by a change in place

  function WithAttrs(s: State, i: nat, attrs: map<string, Value>): State
    requires i < |s.levels|
  {
    s.(levels := s.levels[i := s.levels[i].(attrs := attrs)])
  }

  /** `__setitem__` of a value that exists already. */
  function SetValue(s: State, i: nat, key: Key, v: Value): State
    requires i < |s.levels|
  {
    WithAttrs(s, i, s.levels[i].attrs[(if v.Ref? then key + MUTABLE else key) := v])
  }

  /** `__getitem__` without the read-only promise: an inherited mutable value is copied here. */
  function ReadStep(s: State, i: nat, key: Key): State
    requires Valid(s) && i < |s.levels|
  {
    var v := GetAttr(s, i, key + MUTABLE);
    if GetAttr(s, i, key).None? && key + MUTABLE !in s.levels[i].attrs && v.Some? && v.value.Ref? &&
        v.value.addr < |s.boxes| then
      WithAttrs(s, i, s.levels[i].attrs[key + MUTABLE := Ref(|s.boxes|)]).(boxes := s.boxes + [s.boxes[v.value.addr]])
    else s
  }

  function RevertStep(s: State, i: nat, key: Key): State
    requires i < |s.levels|
  {
    WithAttrs(s, i, s.levels[i].attrs - {if key in s.levels[i].attrs then key else key + MUTABLE})
  }

  function ChangeStep(s: State, i: nat, key: Key, c: Contents): State
    requires Valid(s) && i < |s.levels|
  {
    var s' := ReadStep(s, i, key);
    if GetAttr(s, i, key).None? && key + MUTABLE in s'.levels[i].attrs
       && s'.levels[i].attrs[key + MUTABLE].Ref? && s'.levels[i].attrs[key + MUTABLE].addr < |s'.boxes| then
      s'.(boxes := s'.boxes[s'.levels[i].attrs[key + MUTABLE].addr := c])
    else s'
  }

  predicate Applies(s: State, op: Op) {
    op.i < |s.levels| && (!op.Copy? ==> CleanKey(op.key))
  }

  function Step(s: State, op: Op): State
    requires Valid(s) && Applies(s, op)
  {
    match op
    case Copy(i) => s.(levels := s.levels + [Level(Some(i), map[])])
    case Set(i, key, NewEmpty) => SetValue(s, i, key, EmptyTuple)
    case Set(i, key, NewAtom(a)) => SetValue(s, i, key, Atom(a))
    case Set(i, key, NewData(c)) => SetValue(s.(boxes := s.boxes + [c]), i, key, Ref(|s.boxes|))
    case Delete(i, key) => SetValue(s, i, key, EmptyTuple)
    case Revert(i, key) => RevertStep(s, i, key)
    case Read(i, key) => ReadStep(s, i, key)
    case Change(i, key, c) => ChangeStep(s, i, key, c)
  }

  // ---- Facts about the chain ----

  /** Which level supplies an attribute. */
  lemma AttrOwner(s: State, d: nat, name: string) returns (o: nat)
    requires Linked(s) && d < |s.levels| && GetAttr(s, d, name).Some?
    ensures o <= d && InChain(s, d, o) && name in s.levels[o].attrs &&
            GetAttr(s, d, name) == Some(s.levels[o].attrs[name])
  {
    if name in s.levels[d].attrs {
      o := d;
    } else {
      o := AttrOwner(s, s.levels[d].parent.value, name);
    }
  }

  lemma AttrTyped(s: State, d: nat, name: string)
    requires Valid(s) && d < |s.levels| && GetAttr(s, d, name).Some?
    ensures GetAttr(s, d, name).value.Ref? <==> IsMutableName(name)
    ensures GetAttr(s, d, name).value.Ref? ==> GetAttr(s, d, name).value.addr < |s.boxes|
  {
    var o := AttrOwner(s, d, name);
  }

  /** Two states whose levels differ in the attributes of `i` only. */
  predicate SameBut(s: State, t: State, i: nat) {
    && Linked(s) && Linked(t) && |s.levels| <= |t.levels| && i < |s.levels|
    && (forall j | 0 <= j < |s.levels| :: t.levels[j].parent == s.levels[j].parent)
    && (forall j | 0 <= j < |s.levels| && j != i :: t.levels[j] == s.levels[j])
  }

  /** A level that does not inherit from `i`, or a name that `i` keeps, is not affected. */
  lemma AttrFrame(s: State, t: State, i: nat, d: nat, name: string)
    requires SameBut(s, t, i) && d < |s.levels|
    ensures InChain(t, d, i) == InChain(s, d, i)
    ensures !InChain(s, d, i) ==> GetAttr(t, d, name) == GetAttr(s, d, name)
    ensures (name in s.levels[i].attrs <==> name in t.levels[i].attrs)
            && (name in s.levels[i].attrs ==> s.levels[i].attrs[name] == t.levels[i].attrs[name])
            ==> GetAttr(t, d, name) == GetAttr(s, d, name)
  {
    if s.levels[d].parent.Some? {
      AttrFrame(s, t, i, s.levels[d].parent.value, name);
    }
  }

  lemma InChainLe(s: State, d: nat, i: nat)
    requires Linked(s) && d < |s.levels| && InChain(s, d, i)
    ensures i <= d
  {
    if d != i {
      InChainLe(s, s.levels[d].parent.value, i);
    }
  }

  // ---- Each operation keeps the state valid ----

  lemma SetValid(s: State, i: nat, key: Key, v: Value)
    requires Valid(s) && i < |s.levels| && CleanKey(key)
    requires v.Ref? ==> v.addr < |s.boxes|
    requires v.Ref? ==> forall j, n | 0 <= j < |s.levels| && n in s.levels[j].attrs :: s.levels[j].attrs[n] != v
    ensures Valid(SetValue(s, i, key, v))
  {
    MutableName(key);
    SetBoundOnce(s, i, if v.Ref? then key + MUTABLE else key, v);
    SetTyped(s, i, if v.Ref? then key + MUTABLE else key, v);
  }

  lemma SetBoundOnce(s: State, i: nat, name: string, v: Value)
    requires BoundOnce(s) && i < |s.levels|
    requires v.Ref? ==> forall j, n | 0 <= j < |s.levels| && n in s.levels[j].attrs :: s.levels[j].attrs[n] != v
    ensures BoundOnce(WithAttrs(s, i, s.levels[i].attrs[name := v]))
  {
  }

  lemma SetTyped(s: State, i: nat, name: string, v: Value)
    requires Typed(s) && i < |s.levels| && TypedBinding(s, name, v)
    ensures Typed(WithAttrs(s, i, s.levels[i].attrs[name := v]))
  {
  }

  lemma StepValid(s: State, op: Op)
    requires Valid(s) && Applies(s, op)
    ensures Valid(Step(s, op))
    ensures op.Copy? || SameBut(s, Step(s, op), op.i)
  {
    match op
    case Copy(i) => CopyValid(s, i);
    case Set(i, key, NewEmpty) => SetValid(s, i, key, EmptyTuple);
    case Set(i, key, NewAtom(a)) => SetValid(s, i, key, Atom(a));
    case Set(i, key, NewData(c)) => NewBoxValid(s, i, key, c);
    case Delete(i, key) => SetValid(s, i, key, EmptyTuple);
    case Revert(i, key) => RevertValid(s, i, key);
    case Read(i, key) => ReadValid(s, i, key);
    case Change(i, key, c) => ChangeValid(s, i, key, c);
  }

  lemma CopyValid(s: State, i: nat)
    requires Valid(s) && i < |s.levels|
    ensures Valid(s.(levels := s.levels + [Level(Some(i), map[])]))
  {
  }

  lemma RevertValid(s: State, i: nat, key: Key)
    requires Valid(s) && i < |s.levels|
    ensures Valid(RevertStep(s, i, key)) && SameBut(s, RevertStep(s, i, key), i)
  {
  }

  lemma ChangeValid(s: State, i: nat, key: Key, c: Contents)
    requires Valid(s) && i < |s.levels| && CleanKey(key)
    ensures Valid(ChangeStep(s, i, key, c)) && SameBut(s, ChangeStep(s, i, key, c), i)
  {
    ReadValid(s, i, key);
  }

  lemma NewBoxValid(s: State, i: nat, key: Key, c: Contents)
    requires Valid(s) && i < |s.levels| && CleanKey(key)
    ensures Valid(SetValue(s.(boxes := s.boxes + [c]), i, key, Ref(|s.boxes|)))
  {
    var t := s.(boxes := s.boxes + [c]);
    forall j, n | 0 <= j < |t.levels| && n in t.levels[j].attrs
      ensures t.levels[j].attrs[n] != Ref(|s.boxes|)
    {
      assert TypedBinding(s, n, s.levels[j].attrs[n]);
    }
    SetValid(t, i, key, Ref(|s.boxes|));
  }

  lemma ReadValid(s: State, i: nat, key: Key)
    requires Valid(s) && i < |s.levels| && CleanKey(key)
    ensures Valid(ReadStep(s, i, key)) && SameBut(s, ReadStep(s, i, key), i)
    ensures |s.boxes| <= |ReadStep(s, i, key).boxes| && ReadStep(s, i, key).boxes[..|s.boxes|] == s.boxes
  {
    var v := GetAttr(s, i, key + MUTABLE);
    if v.Some? && v.value.Ref? && v.value.addr < |s.boxes| {
      NewBoxValid(s, i, key, s.boxes[v.value.addr]);
      assert SetValue(s.(boxes := s.boxes + [s.boxes[v.value.addr]]), i, key, Ref(|s.boxes|)) ==
             WithAttrs(s, i, s.levels[i].attrs[key + MUTABLE := Ref(|s.boxes|)])
             .(boxes := s.boxes + [s.boxes[v.value.addr]]);
    }
  }

  // ---- Isolation ----

  /** The boxes bound at `i` are invisible from a level that does not inherit from `i`. */
  lemma ForeignBox(s: State, i: nat, d: nat, n: string, m: string)
    requires Valid(s) && i < |s.levels| && d < |s.levels|
    requires n in s.levels[i].attrs && s.levels[i].attrs[n].Ref?
    requires GetAttr(s, d, m) == Some(s.levels[i].attrs[n])
    ensures InChain(s, d, i) && m == n
  {
    var o := AttrOwner(s, d, m);
  }

  lemma ViewSame(s: State, t: State, d: nat, key: Key)
    requires Valid(s) && Valid(t) && d < |s.levels| && d < |t.levels| && CleanKey(key)
    requires GetAttr(t, d, key) == GetAttr(s, d, key)
    requires GetAttr(t, d, key + MUTABLE) == GetAttr(s, d, key + MUTABLE)
    requires GetAttr(s, d, key + MUTABLE).Some? ==>
               var v := GetAttr(s, d, key + MUTABLE).value;
               v.Ref? ==>
                 && (v.addr < |s.boxes| <==> v.addr < |t.boxes|)
                 && (v.addr < |s.boxes| ==> s.boxes[v.addr] == t.boxes[v.addr])
    ensures View(t, d, key) == View(s, d, key)
  {
    if GetAttr(s, d, key).Some? {
      AttrTyped(s, d, key);
    }
  }

  /**
   Nothing done through a level, be it setting, deleting, reverting, reading or a change in
   place, is visible from a level that does not inherit from it: not from an ancestor, not
   from a sibling.
   */
  lemma Isolation(s: State, op: Op, d: nat, key: Key)
    requires Valid(s) && Applies(s, op) && d < |s.levels| && CleanKey(key)
    requires op.Copy? || !InChain(s, d, op.i)
    ensures Valid(Step(s, op)) && d < |Step(s, op).levels|
    ensures View(Step(s, op), d, key) == View(s, d, key)
  {
    StepValid(s, op);
    var t := Step(s, op);
    MutableName(key);
    if op.Copy? {
      CopyFrame(s, op.i, d, key);
      CopyFrame(s, op.i, d, key + MUTABLE);
    } else {
      AttrFrame(s, t, op.i, d, key);
      AttrFrame(s, t, op.i, d, key + MUTABLE);
      if GetAttr(s, d, key + MUTABLE).Some? {
        AttrTyped(s, d, key + MUTABLE);
        BoxFrame(s, op, d, key + MUTABLE);
      }
    }
    ViewSame(s, t, d, key);
  }

  lemma CopyFrame(s: State, i: nat, d: nat, name: string)
    requires Valid(s) && i < |s.levels| && d < |s.levels|
    ensures Linked(Step(s, Copy(i)))
    ensures GetAttr(Step(s, Copy(i)), d, name) == GetAttr(s, d, name)
  {
    if s.levels[d].parent.Some? {
      CopyFrame(s, i, s.levels[d].parent.value, name);
    }
  }

  /** Only `Change` writes a box that existed before, and only one bound at the level itself. */
  lemma BoxFrame(s: State, op: Op, d: nat, name: string)
    requires Valid(s) && Applies(s, op) && !op.Copy? && d < |s.levels|
    requires GetAttr(s, d, name).Some? && GetAttr(s, d, name).value.Ref?
    requires op.Change? ==> name != op.key + MUTABLE || !InChain(s, d, op.i)
    ensures var r := GetAttr(s, d, name).value.addr;
            r < |s.boxes| <= |Step(s, op).boxes| && Step(s, op).boxes[r] == s.boxes[r]
  {
    AttrTyped(s, d, name);
    var r := GetAttr(s, d, name).value.addr;
    if op.Change? {
      ReadValid(s, op.i, op.key);
      var nkey := op.key + MUTABLE;
      var s1 := ReadStep(s, op.i, op.key);
      assert s1.boxes[..|s.boxes|][r] == s1.boxes[r];
      if nkey in s.levels[op.i].attrs && s.levels[op.i].attrs[nkey] == Ref(r) {
        ForeignBox(s, op.i, d, nkey, name);
      }
    }
  }

  // ---- What an operation does to the dictionary it is applied to ----

  lemma OtherNames(s: State, op: Op, name: string)
    requires Valid(s) && Applies(s, op) && !op.Copy? && name != op.key && name != op.key + MUTABLE
    ensures Valid(Step(s, op)) && SameBut(s, Step(s, op), op.i)
    ensures GetAttr(Step(s, op), op.i, name) == GetAttr(s, op.i, name)
  {
    StepValid(s, op);
    OwnName(s, op, name);
    AttrFrame(s, Step(s, op), op.i, op.i, name);
  }

  /** The level has the same binding of the name, if any. */
  predicate KeepsName(s: State, t: State, i: nat, name: string) {
    && i < |s.levels| == |t.levels|
    && (name in s.levels[i].attrs <==> name in t.levels[i].attrs)
    && (name in s.levels[i].attrs ==> s.levels[i].attrs[name] == t.levels[i].attrs[name])
  }

  lemma OwnName(s: State, op: Op, name: string)
    requires Valid(s) && Applies(s, op) && !op.Copy? && name != op.key && name != op.key + MUTABLE
    ensures KeepsName(s, Step(s, op), op.i, name)
  {
    match op
    case Copy(_) =>
    case Set(i, key, NewEmpty) => SetKeeps(s, i, key, EmptyTuple, name);
    case Set(i, key, NewAtom(a)) => SetKeeps(s, i, key, Atom(a), name);
    case Set(i, key, NewData(c)) => SetKeeps(s.(boxes := s.boxes + [c]), i, key, Ref(|s.boxes|), name);
    case Delete(i, key) => SetKeeps(s, i, key, EmptyTuple, name);
    case Revert(i, key) => RevertKeeps(s, i, key, name);
    case Read(i, key) => ReadKeeps(s, i, key, name);
    case Change(i, key, _) => ReadKeeps(s, i, key, name);
  }

  lemma SetKeeps(s: State, i: nat, key: Key, v: Value, name: string)
    requires i < |s.levels| && name != key && name != key + MUTABLE
    ensures KeepsName(s, SetValue(s, i, key, v), i, name)
  {
  }

  lemma RevertKeeps(s: State, i: nat, key: Key, name: string)
    requires i < |s.levels| && name != key && name != key + MUTABLE
    ensures KeepsName(s, RevertStep(s, i, key), i, name)
  {
  }

  lemma ReadKeeps(s: State, i: nat, key: Key, name: string)
    requires Valid(s) && i < |s.levels| && name != key + MUTABLE
    ensures KeepsName(s, ReadStep(s, i, key), i, name)
  {
  }

  /** The other keys of the dictionary keep their values. */
  lemma OtherKeys(s: State, op: Op, key: Key)
    requires Valid(s) && Applies(s, op) && !op.Copy? && CleanKey(key) && key != op.key
    ensures Valid(Step(s, op)) && op.i < |Step(s, op).levels|
    ensures View(Step(s, op), op.i, key) == View(s, op.i, key)
    ensures GetAttr(Step(s, op), op.i, key) == GetAttr(s, op.i, key)
  {
    StepValid(s, op);
    var t := Step(s, op);
    MutableName(key);
    MutableName(op.key);
    OtherNames(s, op, key);
    OtherNames(s, op, key + MUTABLE);
    if GetAttr(s, op.i, key + MUTABLE).Some? {
      AttrTyped(s, op.i, key + MUTABLE);
      BoxFrame(s, op, op.i, key + MUTABLE);
    }
    ViewSame(s, t, op.i, key);
  }

  /** After a copying read, the name of the mutable value leads to an equal value everywhere. */
  lemma CopiedAttr(s: State, i: nat, key: Key, d: nat)
    requires Valid(s) && i < |s.levels| && d < |s.levels| && CleanKey(key)
    requires ReadStep(s, i, key) != s
    ensures var t, nkey := ReadStep(s, i, key), key + MUTABLE;
            && Linked(t)
            && (GetAttr(t, d, nkey) == GetAttr(s, d, nkey)
                || (GetAttr(t, d, nkey) == Some(Ref(|s.boxes|)) && GetAttr(s, d, nkey) == GetAttr(s, i, nkey)))
  {
    ReadValid(s, i, key);
    if s.levels[d].parent.Some? {
      CopiedAttr(s, i, key, s.levels[d].parent.value);
    }
  }

  /** A read, copying or not, changes what no dictionary shows under no key. */
  lemma ReadChangesNothing(s: State, i: nat, key: Key, d: nat, k: Key)
    requires Valid(s) && i < |s.levels| && d < |s.levels| && CleanKey(key) && CleanKey(k)
    ensures Valid(ReadStep(s, i, key)) && |ReadStep(s, i, key).levels| == |s.levels|
    ensures View(ReadStep(s, i, key), d, k) == View(s, d, k)
    ensures GetAttr(ReadStep(s, i, key), d, k) == GetAttr(s, d, k)
  {
    ReadValid(s, i, key);
    var t := ReadStep(s, i, key);
    MutableName(k);
    MutableName(key);
    AttrFrame(s, t, i, d, k);
    if t != s {
      var v := GetAttr(s, d, k + MUTABLE);
      if v.Some? {
        AttrTyped(s, d, k + MUTABLE);
        assert t.boxes[..|s.boxes|][v.value.addr] == t.boxes[v.value.addr];
      }
      if k == key {
        CopiedAttr(s, i, key, d);
      } else {
        AttrFrame(s, t, i, d, k + MUTABLE);
      }
      if GetAttr(t, d, k + MUTABLE) == v {
        ViewSame(s, t, d, k);
      } else {
        ViewCopied(s, t, d, k);
      }
    }
  }

  lemma ViewCopied(s: State, t: State, d: nat, k: Key)
    requires Valid(s) && Valid(t) && d < |s.levels| && d < |t.levels| && CleanKey(k)
    requires GetAttr(t, d, k) == GetAttr(s, d, k)
    requires var v, w := GetAttr(s, d, k + MUTABLE), GetAttr(t, d, k + MUTABLE);
             && v.Some? && w.Some? && v.value.Ref? && w.value.Ref?
             && v.value.addr < |s.boxes| && w.value.addr < |t.boxes|
             && s.boxes[v.value.addr] == t.boxes[w.value.addr]
    ensures View(t, d, k) == View(s, d, k)
  {
    if GetAttr(s, d, k).Some? {
      AttrTyped(s, d, k);
    }
  }

  /**
   Setting a mutable value can be read back exactly when no plain value and no deletion of
   the key is visible in the chain; otherwise the old answer stays.
   */
  lemma SetDataEffect(s: State, i: nat, key: Key, c: Contents)
    requires Valid(s) && i < |s.levels| && CleanKey(key)
    ensures var t := Step(s, Set(i, key, NewData(c)));
            && Valid(t) && i < |t.levels|
            && GetAttr(t, i, key) == GetAttr(s, i, key)
            && (View(t, i, key) == Some(DataItem(c)) <==> GetAttr(s, i, key).None?)
            && (GetAttr(s, i, key).Some? ==> View(t, i, key) == View(s, i, key))
  {
    var op := Set(i, key, NewData(c));
    StepValid(s, op);
    MutableName(key);
    AttrFrame(s, Step(s, op), i, i, key);
    if GetAttr(s, i, key).Some? {
      AttrTyped(s, i, key);
    }
  }

  /** Plain values are read back; the empty tuple and a deletion read as a missing key. */
  lemma SetPlainEffect(s: State, op: Op)
    requires Valid(s) && Applies(s, op) && ((op.Set? && !op.value.NewData?) || op.Delete?)
    ensures var t := Step(s, op);
            && Valid(t) && op.i < |t.levels|
            && GetAttr(t, op.i, op.key).Some?
            && View(t, op.i, op.key) ==
               if op.Set? && op.value.NewAtom? then Some(PlainItem(op.value.atom)) else None
  {
    StepValid(s, op);
  }

  /** A change in place is seen, if there was a mutable value to change. */
  lemma ChangeEffect(s: State, i: nat, key: Key, c: Contents)
    requires Valid(s) && i < |s.levels| && CleanKey(key)
    ensures var t := Step(s, Change(i, key, c));
            && Valid(t) && i < |t.levels|
            && GetAttr(t, i, key) == GetAttr(s, i, key)
            && View(t, i, key) ==
               match View(s, i, key) { case Some(DataItem(_)) => Some(DataItem(c)) case v => v }
  {
    var op := Change(i, key, c);
    StepValid(s, op);
    MutableName(key);
    ReadChangesNothing(s, i, key, i, key);
    var s1 := ReadStep(s, i, key);
    var t := Step(s, op);
    AttrFrame(s, t, i, i, key);
    if GetAttr(s, i, key).Some? {
      AttrTyped(s, i, key);
    } else if GetAttr(s, i, key + MUTABLE).Some? {
      AttrTyped(s, i, key + MUTABLE);
      assert TypedBinding(s1, key + MUTABLE, s1.levels[i].attrs[key + MUTABLE]);
    }
  }

  /**
   Reverting a binding made at this level shows what the parent shows, exactly when the level
   does not also hold a different mutable value that the plain binding had hidden.
   */
  lemma RevertEffect(s: State, i: nat, key: Key)
    requires Valid(s) && i < |s.levels| && CleanKey(key) && s.levels[i].parent.Some?
    requires key in s.levels[i].attrs || key + MUTABLE in s.levels[i].attrs
    ensures var t, p, nkey := Step(s, Revert(i, key)), s.levels[i].parent.value, key + MUTABLE;
            && Valid(t) && i < |t.levels|
            && (View(t, i, key) == View(s, p, key) <==>
                key !in s.levels[i].attrs || nkey !in s.levels[i].attrs || GetAttr(s, p, key).Some?
                || View(s, p, key) == Some(DataItem(s.boxes[s.levels[i].attrs[nkey].addr])))
  {
    var t, p := Step(s, Revert(i, key)), s.levels[i].parent.value;
    StepValid(s, Revert(i, key));
    MutableName(key);
    if key + MUTABLE in s.levels[i].attrs {
      assert TypedBinding(s, key + MUTABLE, s.levels[i].attrs[key + MUTABLE]);
    }
    if InChain(s, p, i) {
      InChainLe(s, p, i);
    }
    AttrFrame(s, t, i, p, key);
    AttrFrame(s, t, i, p, key + MUTABLE);
  }

  /**
   A list and then an atom, set under one key of a copy: reverting takes away the atom and uncovers
   the list, where the parent shows nothing.
   */
  lemma RevertUncovers(key: Key, c: Contents, a: string)
    requires CleanKey(key)
    ensures var level := Level(Some(0), map[key + MUTABLE := Ref(0), key := Atom(a)]);
            var s := State([Level(None, map[]), level], [c]);
            && Valid(s) && Run(BASE, [Copy(0), Set(1, key, NewData(c)), Set(1, key, NewAtom(a))]) == Some(s)
            && View(s, 1, key) == Some(PlainItem(a)) && View(s, 0, key) == None
            && var t := Step(s, Revert(1, key));
               Valid(t) && 1 < |t.levels| && View(t, 1, key) == Some(DataItem(c))
  {
    var s := State([Level(None, map[]), Level(Some(0), map[key + MUTABLE := Ref(0), key := Atom(a)])], [c]);
    ListThenAtom(key, c, a);
    StepValid(s, Revert(1, key));
    MutableName(key);
    assert GetAttr(s, 0, key) == None && GetAttr(s, 0, key + MUTABLE) == None;
    var t := Step(s, Revert(1, key));
    assert GetAttr(t, 0, key) == None && GetAttr(t, 1, key) == None && GetAttr(t, 1, key + MUTABLE) == Some(Ref(0));
  }

  lemma ListThenAtom(key: Key, c: Contents, a: string)
    requires CleanKey(key)
    ensures Valid(BASE)
    ensures var s := State([Level(None, map[]), Level(Some(0), map[key + MUTABLE := Ref(0), key := Atom(a)])], [c]);
            && Valid(s) && Run(BASE, [Copy(0), Set(1, key, NewData(c)), Set(1, key, NewAtom(a))]) == Some(s)
  {
    MutableName(key);
    BaseRefines();
    var s1 := State([Level(None, map[]), Level(Some(0), map[])], []);
    var s2 := State([Level(None, map[]), Level(Some(0), map[key + MUTABLE := Ref(0)])], [c]);
    var s3 := State([Level(None, map[]), Level(Some(0), map[key + MUTABLE := Ref(0), key := Atom(a)])], [c]);
    StepValid(BASE, Copy(0));
    assert Step(BASE, Copy(0)) == s1;
    StepValid(s1, Set(1, key, NewData(c)));
    assert Step(s1, Set(1, key, NewData(c))) == s2;
    StepValid(s2, Set(1, key, NewAtom(a)));
    assert Step(s2, Set(1, key, NewAtom(a))) == s3;
    var list, atom := Set(1, key, NewData(c)), Set(1, key, NewAtom(a));
    assert [atom] + [] == [atom] && [list] + [atom] == [list, atom] &&
        [Copy(0)] + [list, atom] == [Copy(0), list, atom];
    RunOne(s2, atom, []);
    RunOne(s1, list, [atom]);
    RunOne(BASE, Copy(0), [list, atom]);
    assert Run(s3, []) == Some(s3);
  }

  lemma RunOne(s: State, op: Op, rest: seq<Op>)
    requires Valid(s) && Applies(s, op) && Valid(Step(s, op))
    ensures Run(s, [op] + rest) == Run(Step(s, op), rest)
  {
    assert ([op] + rest)[1..] == rest;
  }

  /** A copy shows what the original shows. */
  lemma CopyEffect(s: State, i: nat, key: Key)
    requires Valid(s) && i < |s.levels|
    ensures var t := Step(s, Copy(i));
            && Valid(t) && |t.levels| == |s.levels| + 1
            && View(t, |s.levels|, key) == View(s, i, key)
            && GetAttr(t, |s.levels|, key) == GetAttr(s, i, key)
  {
    CopyValid(s, i);
    CopyAttr(s, i, key);
    CopyAttr(s, i, key + MUTABLE);
  }

  lemma CopyAttr(s: State, i: nat, name: string)
    requires Valid(s) && i < |s.levels|
    ensures var t := Step(s, Copy(i));
            Linked(t) && |t.levels| == |s.levels| + 1 && GetAttr(t, |s.levels|, name) == GetAttr(s, i, name)
  {
    CopyFrame(s, i, i, name);
    assert Step(s, Copy(i)).levels[|s.levels|] == Level(Some(i), map[]);
  }

  // ---- Refinement of independent plain maps ----

  /**
   The reference: a plain map, copied whole by `cow()`.  `plain` remembers the keys that were
   once set to a plain value or deleted, `copied` that a copy was taken.
   */
  datatype PlainDict = PlainDict(items: map<Key, Item>, plain: set<Key>, copied: bool)

  function MapGet(m: map<Key, Item>, k: Key): Option<Item> {
    if k in m then Some(m[k]) else None
  }

  /** A dictionary is not changed after being copied, and no key turns from plain to mutable. */
  predicate Allowed(rs: seq<PlainDict>, op: Op) {
    && op.i < |rs|
    && !op.Revert?
    && (op.Copy? || op.Read? || !rs[op.i].copied)
    && (op.Set? && op.value.NewData? ==> op.key !in rs[op.i].plain)
    && (!op.Copy? ==> CleanKey(op.key))
  }

  function RefStep(rs: seq<PlainDict>, op: Op): seq<PlainDict>
    requires Allowed(rs, op)
  {
    var r := rs[op.i];
    match op
    case Copy(i) => rs[i := r.(copied := true)] + [r.(copied := false)]
    case Set(i, k, NewAtom(a)) => rs[i := r.(items := r.items[k := PlainItem(a)], plain := r.plain + {k})]
    case Set(i, k, NewData(c)) => rs[i := r.(items := r.items[k := DataItem(c)])]
    case Set(i, k, NewEmpty) => rs[i := r.(items := r.items - {k}, plain := r.plain + {k})]
    case Delete(i, k) => rs[i := r.(items := r.items - {k}, plain := r.plain + {k})]
    case Read(i, k) => rs
    case Change(i, k, c) =>
      if k in r.items && r.items[k].DataItem? then rs[i := r.(items := r.items[k := DataItem(c)])] else rs
  }

  predicate Shows(s: State, d: nat, r: PlainDict, k: Key)
    requires Valid(s) && d < |s.levels|
  {
    View(s, d, k) == MapGet(r.items, k) && (GetAttr(s, d, k).Some? <==> k in r.plain)
  }

  ghost predicate Refines(s: State, rs: seq<PlainDict>) {
    && Valid(s) && |s.levels| == |rs|
    && (forall d, k | 0 <= d < |rs| && CleanKey(k) :: Shows(s, d, rs[d], k))
    && (forall d, i | 0 <= d < |rs| && 0 <= i < |rs| && d != i && InChain(s, d, i) :: rs[i].copied)
  }

  lemma StepShows(s: State, rs: seq<PlainDict>, op: Op, d: nat, k: Key)
    requires Refines(s, rs) && Allowed(rs, op) && d < |rs| && CleanKey(k)
    ensures Valid(Step(s, op)) && d < |Step(s, op).levels| && d < |RefStep(rs, op)|
    ensures Shows(Step(s, op), d, RefStep(rs, op)[d], k)
  {
    StepValid(s, op);
    assert Shows(s, d, rs[d], k);
    if op.Read? || op.Copy? || d != op.i || k != op.key {
      SameShown(s, op, d, k);
      SameReference(rs, op, d, k);
    } else {
      KeyShown(s, rs, op);
    }
  }

  lemma SameReference(rs: seq<PlainDict>, op: Op, d: nat, k: Key)
    requires Allowed(rs, op) && d < |rs| && (op.Read? || op.Copy? || d != op.i || k != op.key)
    ensures d < |RefStep(rs, op)|
    ensures MapGet(RefStep(rs, op)[d].items, k) == MapGet(rs[d].items, k)
    ensures k in RefStep(rs, op)[d].plain <==> k in rs[d].plain
  {
  }

  /** What an operation does not concern is shown as before. */
  lemma SameShown(s: State, op: Op, d: nat, k: Key)
    requires Valid(s) && Applies(s, op) && d < |s.levels| && CleanKey(k)
    requires op.Read? || op.Copy? || (d != op.i && !InChain(s, d, op.i)) || (d == op.i && k != op.key)
    ensures Valid(Step(s, op)) && d < |Step(s, op).levels|
    ensures View(Step(s, op), d, k) == View(s, d, k) && GetAttr(Step(s, op), d, k) == GetAttr(s, d, k)
  {
    StepValid(s, op);
    if op.Read? {
      ReadChangesNothing(s, op.i, op.key, d, k);
    } else if op.Copy? {
      Isolation(s, op, d, k);
      CopyFrame(s, op.i, d, k);
    } else if d != op.i {
      Isolation(s, op, d, k);
      AttrFrame(s, Step(s, op), op.i, d, k);
    } else {
      OtherKeys(s, op, k);
    }
  }

  /** The key of an operation is shown as the plain map has it. */
  lemma KeyShown(s: State, rs: seq<PlainDict>, op: Op)
    requires Refines(s, rs) && Allowed(rs, op) && !op.Read? && !op.Copy?
    ensures Valid(Step(s, op)) && op.i < |Step(s, op).levels| && op.i < |RefStep(rs, op)|
    ensures Shows(Step(s, op), op.i, RefStep(rs, op)[op.i], op.key)
  {
    assert Shows(s, op.i, rs[op.i], op.key);
    if op.Change? {
      ChangeEffect(s, op.i, op.key, op.contents);
    } else if op.Set? && op.value.NewData? {
      SetDataEffect(s, op.i, op.key, op.value.contents);
    } else {
      SetPlainEffect(s, op);
    }
  }

  lemma StepRefines(s: State, rs: seq<PlainDict>, op: Op)
    requires Refines(s, rs) && Allowed(rs, op)
    ensures Refines(Step(s, op), RefStep(rs, op))
  {
    StepValid(s, op);
    forall d, k | 0 <= d < |RefStep(rs, op)| && CleanKey(k)
      ensures Shows(Step(s, op), d, RefStep(rs, op)[d], k)
    {
      EachShows(s, rs, op, d, k);
    }
    forall d, i | 0 <= d < |RefStep(rs, op)| && 0 <= i < |RefStep(rs, op)| && d != i && InChain(Step(s, op), d, i)
      ensures RefStep(rs, op)[i].copied
    {
      InheritedCopied(s, rs, op, d, i);
    }
  }

  lemma EachShows(s: State, rs: seq<PlainDict>, op: Op, d: nat, k: Key)
    requires Refines(s, rs) && Allowed(rs, op) && Valid(Step(s, op)) && d < |RefStep(rs, op)| && CleanKey(k)
    ensures Shows(Step(s, op), d, RefStep(rs, op)[d], k)
  {
    if d < |rs| {
      StepShows(s, rs, op, d, k);
    } else {
      CopyShows(s, rs, op.i, k);
    }
  }

  lemma CopyShows(s: State, rs: seq<PlainDict>, i: nat, k: Key)
    requires Refines(s, rs) && i < |rs| && CleanKey(k)
    ensures var t := Step(s, Copy(i));
            Valid(t) && |t.levels| == |rs| + 1 && Shows(t, |rs|, rs[i].(copied := false), k)
  {
    assert Shows(s, i, rs[i], k);
    CopyEffect(s, i, k);
  }

  /** A dictionary that another one inherits from has been copied. */
  lemma InheritedCopied(s: State, rs: seq<PlainDict>, op: Op, d: nat, i: nat)
    requires Refines(s, rs) && Allowed(rs, op) && Valid(Step(s, op))
    requires d < |RefStep(rs, op)| && i < |RefStep(rs, op)| && d != i && |RefStep(rs, op)| == |Step(s, op).levels| &&
             InChain(Step(s, op), d, i)
    ensures RefStep(rs, op)[i].copied
  {
    StepInChain(s, op, d, i);
    if d < |rs| {
      InChainLe(s, d, i);
      assert rs[i].copied;
    } else if i != op.i {
      InChainLe(s, op.i, i);
      assert rs[i].copied;
    }
  }

  lemma StepInChain(s: State, op: Op, d: nat, i: nat)
    requires Valid(s) && Applies(s, op) && d < |Step(s, op).levels| && Linked(Step(s, op))
    ensures d < |s.levels| ==> InChain(Step(s, op), d, i) == InChain(s, d, i)
    ensures d >= |s.levels| ==> op.Copy? && (InChain(Step(s, op), d, i) <==> d == i || InChain(s, op.i, i))
  {
    StepValid(s, op);
    var t := Step(s, op);
    if d < |s.levels| {
      if s.levels[d].parent.Some? {
        StepInChain(s, op, s.levels[d].parent.value, i);
      }
    } else {
      StepInChain(s, op, op.i, i);
    }
  }

  /** The dictionaries at the start: the empty base class. */
  const BASE := State([Level(None, map[])], [])

  predicate AllAllowed(rs: seq<PlainDict>, ops: seq<Op>)
    decreases |ops|
  {
    ops == [] || (Allowed(rs, ops[0]) && AllAllowed(RefStep(rs, ops[0]), ops[1..]))
  }

  function RefRun(rs: seq<PlainDict>, ops: seq<Op>): seq<PlainDict>
    requires AllAllowed(rs, ops)
    decreases |ops|
  {
    if ops == [] then rs else RefRun(RefStep(rs, ops[0]), ops[1..])
  }

  /** The state after a run; `None` when an operation does not apply. */
  function Run(s: State, ops: seq<Op>): Option<State>
    requires Valid(s)
    decreases |ops|
  {
    if ops == [] then Some(s)
    else if !Applies(s, ops[0]) then None
    else
      StepValid(s, ops[0]);
      Run(Step(s, ops[0]), ops[1..])
  }

  /**
   Over every run in which no dictionary is changed after being copied and no key gets a
   mutable value once a plain value or a deletion of it is visible, every dictionary shows
   what an independent plain map shows, key by key.
   */
  lemma {:induction false} RunRefines(s: State, rs: seq<PlainDict>, ops: seq<Op>)
    requires Refines(s, rs) && AllAllowed(rs, ops)
    ensures Run(s, ops).Some? && Refines(Run(s, ops).value, RefRun(rs, ops))
    decreases |ops|
  {
    if ops != [] {
      StepRefines(s, rs, ops[0]);
      StepValid(s, ops[0]);
      RunRefines(Step(s, ops[0]), RefStep(rs, ops[0]), ops[1..]);
    }
  }

  lemma BaseRefines()
    ensures Refines(BASE, [PlainDict(map[], {}, false)])
  {
  }

  /** The exclusion is needed: a key set to an atom and then to a list still reads as the atom. */
  lemma PlainHidesMutable()
    ensures Valid(BASE)
    ensures var s := Step(BASE, Set(0, "k", NewAtom("1")));
            Valid(s) && View(Step(s, Set(0, "k", NewData([]))), 0, "k") == Some(PlainItem("1"))
  {
    BaseRefines();
    assert "k" != MUTABLE && CleanKey("k");
    StepValid(BASE, Set(0, "k", NewAtom("1")));
    SetDataEffect(Step(BASE, Set(0, "k", NewAtom("1"))), 0, "k", []);
  }

  // ---- The operations as the source performs them ----

  /** `dir(cls)`: the attribute names of the whole chain. */
  function Names(s: State, d: nat): (ns: set<string>)
    requires Linked(s) && d < |s.levels|
    ensures forall n :: n in ns <==> GetAttr(s, d, n).Some?
  {
    s.levels[d].attrs.Keys + if s.levels[d].parent.Some? then Names(s, s.levels[d].parent.value) else {}
  }

  /** What a read finds and does where no plain value is visible: an inherited mutable value is copied. */
  lemma ReadMutable(s: State, i: nat, key: Key)
    requires Valid(s) && i < |s.levels| && CleanKey(key) && GetAttr(s, i, key).None?
    ensures Lookup(s, i, key) == GetAttr(s, i, key + MUTABLE)
    ensures Valid(ReadStep(s, i, key)) && |ReadStep(s, i, key).levels| == |s.levels|
    ensures var own, v, t := s.levels[i].attrs, GetAttr(s, i, key + MUTABLE), ReadStep(s, i, key);
            if key + MUTABLE in own || v.None? then t == s
            else
              && v.value.Ref? && v.value.addr < |s.boxes|
              && t == WithAttrs(s, i, own[key + MUTABLE := Ref(|s.boxes|)]).(boxes := s.boxes + [s.boxes[v.value.addr]])
              && Lookup(t, i, key) == Some(Ref(|s.boxes|))
  {
    ReadValid(s, i, key);
    MutableName(key);
    if GetAttr(s, i, key + MUTABLE).Some? {
      AttrTyped(s, i, key + MUTABLE);
    }
    AttrFrame(s, ReadStep(s, i, key), i, i, key);
  }

  /** What is seen of a value that a read hands out. */
  function Shown(r: Option<Value>, boxes: seq<Contents>): Option<Item> {
    match r
    case Some(Atom(a)) => Some(PlainItem(a))
    case Some(Ref(addr)) => if addr < |boxes| then Some(DataItem(boxes[addr])) else None
    case _ => None
  }

  lemma HandedOut(s: State, i: nat, key: Key)
    requires Valid(s) && i < |s.levels| && CleanKey(key)
    ensures Valid(ReadStep(s, i, key)) && |ReadStep(s, i, key).levels| == |s.levels|
    ensures View(s, i, key) == Shown(Lookup(s, i, key), s.boxes)
    ensures var t := ReadStep(s, i, key);
            && View(s, i, key) == Shown(Lookup(t, i, key), t.boxes)
            && (Lookup(t, i, key).Some? && Lookup(t, i, key).value.Ref? ==>
                  key + MUTABLE in t.levels[i].attrs && t.levels[i].attrs[key + MUTABLE] == Lookup(t, i, key).value)
  {
    ReadChangesNothing(s, i, key, i, key);
    if GetAttr(s, i, key).Some? {
      AttrTyped(s, i, key);
    } else {
      ReadMutable(s, i, key);
    }
  }

  class CowDicts {
    var levels: seq<Level>
    var boxes: seq<Contents>

    ghost function Now(): State
      reads this
    {
      State(levels, boxes)
    }

    constructor ()
      ensures Now() == BASE
    {
      levels, boxes := [Level(None, map[])], [];
    }

    method Cow(i: nat) returns (d: nat)
      requires Valid(Now()) && i < |levels|
      modifies this
      ensures Now() == Step(old(Now()), Copy(i)) && Valid(Now())
      ensures d == |old(levels)|
    {
      StepValid(Now(), Copy(i));
      d := |levels|;
      levels := levels + [Level(Some(i), map[])];
    }

    method SetAttr(i: nat, name: string, v: Value)
      requires i < |levels|
      modifies this`levels
      ensures levels == old(levels)[i := old(levels)[i].(attrs := old(levels)[i].attrs[name := v])]
    {
      levels := levels[i := levels[i].(attrs := levels[i].attrs[name := v])];
    }

    method SetItem(i: nat, key: Key, value: Value)
      requires i < |levels|
      modifies this`levels
      ensures Now() == SetValue(old(Now()), i, key, value)
    {
      var name := key;
      if value.Ref? {
        name := name + MUTABLE;
      }
      SetAttr(i, name, value);
    }

    /** `d[key] = value`, with a mutable value made for the purpose. */
    method Assign(i: nat, key: Key, v: NewValue)
      requires Valid(Now()) && i < |levels| && CleanKey(key)
      modifies this
      ensures Now() == Step(old(Now()), Set(i, key, v)) && Valid(Now())
    {
      StepValid(Now(), Set(i, key, v));
      match v {
        case NewEmpty => SetItem(i, key, EmptyTuple);
        case NewAtom(a) => SetItem(i, key, Atom(a));
        case NewData(c) =>
          boxes := boxes + [c];
          SetItem(i, key, Ref(|boxes| - 1));
      }
    }

    method DelItem(i: nat, key: Key)
      requires Valid(Now()) && i < |levels| && CleanKey(key)
      modifies this
      ensures Now() == Step(old(Now()), Delete(i, key)) && Valid(Now())
    {
      StepValid(Now(), Delete(i, key));
      SetItem(i, key, EmptyTuple);
    }

    /** Raises, as `delattr` does, when the level itself has no binding of the key. */
    method RevertItem(i: nat, key: Key) returns (ok: bool)
      requires Valid(Now()) && i < |levels| && CleanKey(key)
      modifies this
      ensures Now() == Step(old(Now()), Revert(i, key)) && Valid(Now())
      ensures ok <==> key in old(levels)[i].attrs || key + MUTABLE in old(levels)[i].attrs
      ensures !ok ==> levels == old(levels)
    {
      StepValid(Now(), Revert(i, key));
      var name := key;
      if name !in levels[i].attrs {
        name := name + MUTABLE;
      }
      ok := name in levels[i].attrs;
      assert !ok ==> levels[i].attrs - {name} == levels[i].attrs;
      levels := levels[i := levels[i].(attrs := levels[i].attrs - {name})];
    }

    method GetMutable(i: nat, key: Key, readonly: bool) returns (r: Option<Value>)
      requires Valid(Now()) && i < |levels| && CleanKey(key) && GetAttr(Now(), i, key).None?
      modifies this
      ensures Valid(Now()) && |levels| == |old(levels)|
      ensures Now() == if readonly then old(Now()) else ReadStep(old(Now()), i, key)
      ensures r == Lookup(Now(), i, key)
    {
      var nkey := key + MUTABLE;
      ReadMutable(Now(), i, key);
      if nkey in levels[i].attrs {
        return Some(levels[i].attrs[nkey]);
      }
      r := GetAttr(State(levels, boxes), i, nkey);
      if readonly || r.None? {
        return;
      }
      CopyMutable(i, nkey, r.value.addr);
      r := Some(Ref(|boxes| - 1));
    }

    /** `value = value.copy()` and the binding of the copy at this level. */
    method CopyMutable(i: nat, nkey: string, addr: nat)
      requires i < |levels| && addr < |boxes|
      modifies this
      ensures var s := old(Now());
              && Now() == WithAttrs(s, i, s.levels[i].attrs[nkey := Ref(|s.boxes|)])
                          .(boxes := s.boxes + [s.boxes[addr]])
              && |boxes| == |s.boxes| + 1
    {
      boxes := boxes + [boxes[addr]];
      SetAttr(i, nkey, Ref(|boxes| - 1));
    }

    method GetItem(i: nat, key: Key, readonly: bool) returns (r: Option<Value>)
      requires Valid(Now()) && i < |levels| && CleanKey(key)
      modifies this
      ensures Valid(Now()) && |levels| == |old(levels)|
      ensures Now() == if readonly then old(Now()) else ReadStep(old(Now()), i, key)
      ensures r == Lookup(Now(), i, key)
      // what is shown is handed out: for change, the mutable value this level holds itself
      ensures View(old(Now()), i, key) == Shown(r, boxes)
      ensures readonly ==> levels == old(levels) && boxes == old(boxes)
      ensures !readonly && r.Some? && r.value.Ref? ==>
                key + MUTABLE in levels[i].attrs && levels[i].attrs[key + MUTABLE] == r.value
    {
      HandedOut(Now(), i, key);
      var plain := GetAttr(State(levels, boxes), i, key);
      match plain
      case Some(v) =>
        AttrTyped(Now(), i, key);
        r := if v.EmptyTuple? then None else plain;
      case None =>
        r := GetMutable(i, key, readonly);
    }

    /** A change in place of the value that `d[key]` hands out. */
    method ChangeInPlace(i: nat, key: Key, c: Contents)
      requires Valid(Now()) && i < |levels| && CleanKey(key)
      modifies this
      ensures Now() == Step(old(Now()), Change(i, key, c)) && Valid(Now())
    {
      StepValid(Now(), Change(i, key, c));
      MutableName(key);
      ghost var s := Now();
      if GetAttr(s, i, key).Some? {
        AttrTyped(s, i, key);
      } else if GetAttr(s, i, key + MUTABLE).Some? {
        AttrTyped(s, i, key + MUTABLE);
      }
      ReadChangesNothing(s, i, key, i, key);
      var r := GetItem(i, key, false);
      if r.Some? && r.value.Ref? {
        assert GetAttr(s, i, key).None?;
        assert TypedBinding(Now(), key + MUTABLE, levels[i].attrs[key + MUTABLE]);
        boxes := boxes[r.value.addr := c];
      }
    }

    method HasKey(i: nat, key: Key) returns (b: bool)
      requires Valid(Now()) && i < |levels| && CleanKey(key)
      modifies this
      ensures Now() == old(Now())
      ensures b <==> View(Now(), i, key).Some?
    {
      var value := GetItem(i, key, true);
      b := value.Some?;
      LookupTyped(Now(), i, key);
    }

    /** One turn of `iter`: the item of one attribute name, if reading its key does not raise. */
    method ListOne(i: nat, key: Key, readonly: bool) returns (v: Option<Item>)
      requires Valid(Now()) && i < |levels| && CleanKey(key)
      modifies this
      ensures SameViews(old(Now()), Now())
      ensures v == View(Now(), i, key)
    {
      ghost var s := Now();
      assert SameViews(s, s);
      ReadSameViews(s, s, i, key);
      var value := GetItem(i, key, readonly);
      LookupTyped(Now(), i, key);
      match value
      case None => v := None;
      case Some(Ref(r)) => v := Some(DataItem(boxes[r]));
      case Some(Atom(a)) => v := Some(PlainItem(a));
    }

    /**
     `iteritems`: exactly the items that reading key by key shows, of the keys that can be listed; nothing
     else changes.
     */
    method ListItems(i: nat, readonly: bool) returns (items: set<(Key, Item)>)
      requires Valid(Now()) && i < |levels|
      modifies this
      ensures SameViews(old(Now()), Now())
      ensures forall k, v :: (k, v) in items <==>
                CleanKey(k) && CanBeListed(old(Now()), i, k) && View(old(Now()), i, k) == Some(v)
    {
      items := {};
      ghost var s := Now();
      ghost var done: set<string> := {};
      var names := Names(State(levels, boxes), i);
      while names != {}
        invariant Listing(s, Now(), i, done, names, items)
        decreases |names|
      {
        var name :| name in names;
        items := ListName(i, name, readonly, items, s, done, names);
        names, done := names - {name}, done + {name};
      }
      ListedAll(s, Now(), i, done, items);
    }

    /** One turn of the loop: the item of the name, unless it is special or its key is missing or deleted. */
    method ListName(i: nat, name: string, readonly: bool, items: set<(Key, Item)>,
                    ghost s: State, ghost done: set<string>, ghost names: set<string>)
      returns (items': set<(Key, Item)>)
      requires Listing(s, Now(), i, done, names, items) && name in names
      modifies this
      ensures Listing(s, Now(), i, done + {name}, names - {name}, items')
    {
      NamesClean(s, i, name);
      if IsSpecial(name) {
        SkippedStep(s, i, done, name, items);
        return items;
      }
      var key := if IsMutableName(name) then name[..|name| - |MUTABLE|] else name;
      ghost var before := Now();
      var value := ListOne(i, key, readonly);
      SameViewsTrans(s, before, Now());
      ListedStep(s, Now(), i, done, name, items, value);
      items' := if value.None? then items else items + {(key, value.value)};
    }
  }

  /** Of the names of the dictionary in `s`, those in `done` are listed; the views in `t` are those in `s`. */
  ghost predicate Listing(s: State, t: State, i: nat, done: set<string>, todo: set<string>, items: set<(Key, Item)>) {
    SameViews(s, t) && i < |s.levels| && done + todo == Names(s, i) && Listed(s, i, done, items)
  }

  lemma ListedAll(s: State, t: State, i: nat, done: set<string>, items: set<(Key, Item)>)
    requires Listing(s, t, i, done, {}, items)
    ensures forall k, v :: (k, v) in items <==> CleanKey(k) && CanBeListed(s, i, k) && View(s, i, k) == Some(v)
  {
    assert done == Names(s, i);
  }

  /** Some name under which the key is bound is not skipped for its leading underscores. */
  predicate CanBeListed(s: State, i: nat, key: Key)
    requires Linked(s) && i < |s.levels|
  {
    GetAttr(s, i, key).Some? || (GetAttr(s, i, key + MUTABLE).Some? && !IsSpecial(key + MUTABLE))
  }

  /** Everything that is shown is listed, except exactly mutable values under the keys "" and "_". */
  lemma ListedUnless(s: State, i: nat, key: Key)
    requires Valid(s) && i < |s.levels| && CleanKey(key) && View(s, i, key).Some?
    ensures CanBeListed(s, i, key) <==> !(View(s, i, key).value.DataItem? && (key == "" || key == "_"))
  {
    MutableName(key);
    if GetAttr(s, i, key).Some? {
      AttrTyped(s, i, key);
    } else {
      AttrTyped(s, i, key + MUTABLE);
      assert |key| >= 2 ==> (key + MUTABLE)[..2] == key[..2];
      assert |key| == 1 ==> (key + MUTABLE)[..2] == key + ['_'];
    }
  }

  /** A list under the key "_" can be read, and is never listed. */
  lemma UnderscoreNotListed(c: Contents)
    ensures var s := State([Level(None, map["_" + MUTABLE := Ref(0)])], [c]);
            && Valid(s) && Run(BASE, [Set(0, "_", NewData(c))]) == Some(s)
            && CleanKey("_") && View(s, 0, "_") == Some(DataItem(c)) && !CanBeListed(s, 0, "_")
  {
    assert CleanKey("_") && !IsMutableName("_");
    BaseRefines();
    var op := Set(0, "_", NewData(c));
    var s := State([Level(None, map["_" + MUTABLE := Ref(0)])], [c]);
    StepValid(BASE, op);
    assert Step(BASE, op) == s;
    assert [op] + [] == [op];
    RunOne(BASE, op, []);
    SetDataEffect(BASE, 0, "_", c);
    ListedUnless(s, 0, "_");
  }

  ghost predicate SameViews(s: State, t: State) {
    && Valid(s) && Valid(t) && |t.levels| == |s.levels|
    && forall d: nat, k | d < |s.levels| && CleanKey(k) :: View(t, d, k) == View(s, d, k)
  }

  lemma SameViewsTrans(s: State, t: State, u: State)
    requires SameViews(s, t) && SameViews(t, u)
    ensures SameViews(s, u)
  {
  }

  lemma ReadSameViews(s: State, t: State, i: nat, key: Key)
    requires SameViews(s, t) && i < |s.levels| && CleanKey(key)
    ensures SameViews(s, ReadStep(t, i, key))
  {
    ReadValid(t, i, key);
    forall d: nat, k | d < |s.levels| && CleanKey(k)
      ensures View(ReadStep(t, i, key), d, k) == View(s, d, k)
    {
      ReadChangesNothing(t, i, key, d, k);
    }
  }

  /** `items` holds what the keys of the names in `done` show. */
  ghost predicate Listed(s: State, i: nat, done: set<string>, items: set<(Key, Item)>)
    requires Valid(s) && i < |s.levels|
  {
    forall k, v :: (k, v) in items <==> CleanKey(k) && ListedBy(done, k) && View(s, i, k) == Some(v)
  }

  /** One of the names lists the key. */
  predicate ListedBy(names: set<string>, k: Key) {
    k in names || (k + MUTABLE in names && !IsSpecial(k + MUTABLE))
  }

  /** A special name lists no key. */
  lemma SkippedStep(s: State, i: nat, done: set<string>, name: string, items: set<(Key, Item)>)
    requires Valid(s) && i < |s.levels| && Listed(s, i, done, items) && IsSpecial(name)
    ensures Listed(s, i, done + {name}, items)
  {
    forall k | CleanKey(k) ensures ListedBy(done + {name}, k) <==> ListedBy(done, k) {
    }
  }

  lemma ListedStep(s: State, t: State, i: nat, done: set<string>, name: string, items: set<(Key, Item)>,
                   v: Option<Item>)
    requires SameViews(s, t) && i < |s.levels| && name in Names(s, i) && v == View(t, i, KeyOf(name))
    requires Listed(s, i, done, items) && !IsSpecial(name)
    ensures var key := KeyOf(name);
            && CleanKey(key)
            && (v.None? ==> Listed(s, i, done + {name}, items))
            && (v.Some? ==> Listed(s, i, done + {name}, items + {(key, v.value)}))
  {
    NamesClean(s, i, name);
    var key := KeyOf(name);
    forall k | CleanKey(k)
      ensures ListedBy(done + {name}, k) <==> ListedBy(done, k) || k == key
    {
      MutableName(k);
    }
  }

  lemma LookupTyped(s: State, i: nat, key: Key)
    requires Valid(s) && i < |s.levels| && CleanKey(key)
    ensures Lookup(s, i, key).Some? ==>
              var v := Lookup(s, i, key).value;
              !v.EmptyTuple? && (v.Ref? ==> v.addr < |s.boxes|)
  {
    MutableName(key);
    if GetAttr(s, i, key).Some? {
      AttrTyped(s, i, key);
    } else if GetAttr(s, i, key + MUTABLE).Some? {
      AttrTyped(s, i, key + MUTABLE);
    }
  }

  lemma NamesClean(s: State, i: nat, name: string)
    requires Valid(s) && i < |s.levels| && name in Names(s, i)
    ensures CleanKey(KeyOf(name))
    ensures IsMutableName(name) ==> name == KeyOf(name) + MUTABLE
  {
    var o := AttrOwner(s, i, name);
    assert TypedBinding(s, name, s.levels[o].attrs[name]);
  }
}
