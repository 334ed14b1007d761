/**
 Reading raw events from inotify: `Notifier.read_events`.

 The kernel hands out a block of records of 16 bytes and a padded name each.  With coalescing
 on, an event joins the queue only if its printed form has not been seen in the batch.
 */
module NotifierFrames {
  import opened Wrappers
  import opened Sequences
  import opened Bytes
  import Text

  datatype RawEvent = RawEvent(wd: int, mask: nat, cookie: nat, name: seq<byte>)

  const HEADER := 16

  // ---- Records ----

  /** A record whose fields fit, with a name as it is after stripping. */
  predicate Fits(e: RawEvent, pad: nat) {
    && -0x8000_0000 <= e.wd < 0x8000_0000
    && e.mask < 0x1_0000_0000 && e.cookie < 0x1_0000_0000 && |e.name| + pad < 0x1_0000_0000
    && (e.name == [] || e.name[|e.name| - 1] != 0)
  }

  /** The bytes of a record, with `pad` NULs behind the name. */
  function Frame(en: Endian, e: RawEvent, pad: nat): seq<byte>
    requires Fits(e, pad)
  {
    Head(en, e, pad) + (e.name + Zeros(pad))
  }

  function Head(en: Endian, e: RawEvent, pad: nat): (head: seq<byte>)
    requires Fits(e, pad)
    ensures |head| == HEADER
  {
    PowerValues();
    Encode(en, Unsigned(e.wd, 4), 4) + Encode(en, e.mask, 4) + Encode(en, e.cookie, 4) + Encode(en, |e.name| + pad, 4)
  }

  function Slice(r: seq<byte>, lo: nat, hi: nat): (s: seq<byte>)
    requires lo <= hi
  {
    if lo > |r| then [] else if hi > |r| then r[lo..] else r[lo..hi]
  }

  /** How the four integers of a header are unpacked, and what becomes of the bytes of a name. */
  datatype Format = Format(head: seq<byte> -> (int, nat, nat, nat), name: seq<byte> -> seq<byte>)

  /** `struct.unpack('iIII', head)` */
  function UnpackHeader(en: Endian, head: seq<byte>): (int, nat, nat, nat) {
    if |head| != HEADER then (0, 0, 0, 0)
    else (Signed(Decode(en, head[0..4]), 4), Decode(en, head[4..8]), Decode(en, head[8..12]), Decode(en, head[12..16]))
  }

  function FormatOf(en: Endian): Format {
    Format(head => UnpackHeader(en, head), bname => StripNuls(bname))
  }

  /** The record at a position of a block and the length of its padded name; `None` where `struct` raises an error. */
  type Parser = (seq<byte>, nat) -> Option<(RawEvent, nat)>

  function ParseRecord(format: Format, r: seq<byte>, at: nat): Option<(RawEvent, nat)> {
    var head := Slice(r, at, at + HEADER);
    if |head| != HEADER then None
    else
      var (wd, mask, cookie, len) := format.head(head);
      var bname := Slice(r, at + HEADER, at + HEADER + len);
      if |bname| != len then None else Some((RawEvent(wd, mask, cookie, format.name(bname)), len))
  }

  function ParserFor(format: Format): Parser {
    (r, at) => ParseRecord(format, r, at)
  }

  function ParserOf(en: Endian): Parser {
    ParserFor(FormatOf(en))
  }

  /** All records of a block of `size` bytes from `at` on, and whether none was cut short. */
  function ParseBlock(parse: Parser, r: seq<byte>, at: nat, size: nat): (seq<RawEvent>, bool)
    decreases size - at
  {
    if at >= size then ([], true)
    else
      match parse(r, at)
      case None => ([], false)
      case Some((e, len)) =>
        var (rest, all) := ParseBlock(parse, r, at + HEADER + len, size);
        ([e] + rest, all)
  }

  // ---- The printed form ----

  function Digit(d: nat): char
    requires d < 16
  {
    if d < 10 then ('0' as int + d) as char else ('a' as int + d - 10) as char
  }

  function Quotient(n: nat, hex: bool): nat {
    if hex then n / 16 else n / 10
  }

  function Remainder(n: nat, hex: bool): (d: nat)
    ensures d < 16
  {
    if hex then n % 16 else n % 10
  }

  /** A number in decimal or hexadecimal notation. */
  function Numeral(n: nat, hex: bool): (s: string)
    ensures s != ""
    decreases n
  {
    if Quotient(n, hex) == 0 then [Digit(Remainder(n, hex))]
    else Numeral(Quotient(n, hex), hex) + [Digit(Remainder(n, hex))]
  }

  function Decimal(i: int): string {
    if i < 0 then ['-'] + Numeral(-i, false) else Numeral(i, false)
  }

  /** One character per byte. */
  function Chars(bs: seq<byte>): (s: string)
    ensures |s| == |bs|
  {
    seq(|bs|, i requires 0 <= i < |bs| => bs[i] as char)
  }

  /** An empty name is printed as a pair of quotes. */
  function Shown(name: seq<byte>): string {
    if name == [] then "''" else Chars(name)
  }

  /** The fields in alphabetical order, with a blank before each of them and at the end. */
  function Str(e: RawEvent): string {
    "<_RawEvent" + [' '] + (CookieField(e) + [' '] +
        (MaskField(e) + [' '] + (NameField(e) + [' '] + (WdField(e) + [' '] + ">"))))
  }

  function CookieField(e: RawEvent): string {
    "cookie=" + Decimal(e.cookie)
  }

  function MaskField(e: RawEvent): string {
    "mask=0x" + Numeral(e.mask, true)
  }

  function NameField(e: RawEvent): string {
    "name=" + Shown(e.name)
  }

  function WdField(e: RawEvent): string {
    "wd=" + Decimal(e.wd)
  }

  /** What the printed form distinguishes. */
  predicate Same(a: RawEvent, b: RawEvent) {
    a.wd == b.wd && a.mask == b.mask && a.cookie == b.cookie && Shown(a.name) == Shown(b.name)
  }

  lemma {:induction false} NumeralInjective(m: nat, n: nat, hex: bool)
    requires Numeral(m, hex) == Numeral(n, hex)
    ensures m == n
    decreases m
  {
    var s, p, q := Numeral(m, hex), Quotient(m, hex), Quotient(n, hex);
    assert s[|s| - 1] == Digit(Remainder(m, hex)) && s[|s| - 1] == Digit(Remainder(n, hex));
    assert Remainder(m, hex) == Remainder(n, hex);
    if p != 0 && q != 0 {
      assert s[..|s| - 1] == Numeral(p, hex) && s[..|s| - 1] == Numeral(q, hex);
      NumeralInjective(p, q, hex);
    }
  }

  lemma {:induction false} NumeralPlain(n: nat, hex: bool)
    ensures ' ' !in Numeral(n, hex) && '-' !in Numeral(n, hex)
    decreases n
  {
    if Quotient(n, hex) != 0 {
      NumeralPlain(Quotient(n, hex), hex);
    }
  }

  function Magnitude(i: int): nat {
    if i < 0 then -i else i
  }

  lemma DecimalInjective(i: int, j: int)
    requires Decimal(i) == Decimal(j)
    ensures i == j
  {
    NumeralPlain(Magnitude(i), false);
    NumeralPlain(Magnitude(j), false);
    assert Decimal(i)[0] == '-' <==> i < 0;
    assert Decimal(j)[0] == '-' <==> j < 0;
    assert i < 0 ==> Decimal(i)[1..] == Numeral(-i, false);
    assert j < 0 ==> Decimal(j)[1..] == Numeral(-j, false);
    NumeralInjective(Magnitude(i), Magnitude(j), false);
  }

  /** The words of the printed form: all fields but the name are single words. */
  lemma StrWords(e: RawEvent)
    ensures Text.Split(Str(e), ' ') ==
            ["<_RawEvent"] + ([CookieField(e)] +
                ([MaskField(e)] + (Text.Split(NameField(e), ' ') + ([WdField(e)] + [">"]))))
  {
    FieldsPlain(e);
    var w := WdField(e) + [' '] + ">";
    var n := NameField(e) + [' '] + w;
    var m := MaskField(e) + [' '] + n;
    Text.SplitFirst("<_RawEvent", CookieField(e) + [' '] + m, ' ');
    Text.SplitFirst(CookieField(e), m, ' ');
    Text.SplitFirst(MaskField(e), n, ' ');
    Text.SplitAppend(NameField(e), w, ' ');
    Text.SplitFirst(WdField(e), ">", ' ');
    Text.SplitNone(">", ' ');
  }

  lemma FieldsPlain(e: RawEvent)
    ensures ' ' !in CookieField(e) && ' ' !in MaskField(e) && ' ' !in WdField(e) && ' ' !in "<_RawEvent" && ' ' !in ">"
  {
    NumeralPlain(e.cookie, false);
    NumeralPlain(e.mask, true);
    NumeralPlain(Magnitude(e.wd), false);
  }

  /** Lists of three words, a name, and two words are equal only part by part. */
  lemma WordsDetermine(h: string, c1: string, m1: string, n1: seq<string>, w1: string,
                       c2: string, m2: string, n2: seq<string>, w2: string, t: string)
    requires [h] + ([c1] + ([m1] + (n1 + ([w1] + [t])))) == [h] + ([c2] + ([m2] + (n2 + ([w2] + [t]))))
    ensures c1 == c2 && m1 == m2 && n1 == n2 && w1 == w2
  {
    var a, b := [h] + ([c1] + ([m1] + (n1 + ([w1] + [t])))), [h] + ([c2] + ([m2] + (n2 + ([w2] + [t]))));
    assert a[1] == c1 && b[1] == c2;
    assert a[2] == m1 && b[2] == m2;
    assert a[3..|a| - 2] == n1 && b[3..|b| - 2] == n2;
    assert a[|a| - 2] == w1 && b[|b| - 2] == w2;
  }

  /** Two events print alike exactly when they agree up to the printing of an empty name. */
  lemma StrInjective(a: RawEvent, b: RawEvent)
    ensures Str(a) == Str(b) <==> Same(a, b)
  {
    if Str(a) == Str(b) {
      StrWords(a);
      StrWords(b);
      WordsDetermine("<_RawEvent", CookieField(a), MaskField(a), Text.Split(NameField(a), ' '), WdField(a),
                     CookieField(b), MaskField(b), Text.Split(NameField(b), ' '), WdField(b), ">");
      Text.SplitParts(NameField(a), ' ');
      Text.SplitParts(NameField(b), ' ');
      Cancel("cookie=", Decimal(a.cookie), Decimal(b.cookie));
      Cancel("mask=0x", Numeral(a.mask, true), Numeral(b.mask, true));
      Cancel("name=", Shown(a.name), Shown(b.name));
      Cancel("wd=", Decimal(a.wd), Decimal(b.wd));
      DecimalInjective(a.cookie, b.cookie);
      NumeralInjective(a.mask, b.mask, true);
      DecimalInjective(a.wd, b.wd);
    }
  }

  lemma CharsInjective(a: seq<byte>, b: seq<byte>)
    requires Chars(a) == Chars(b)
    ensures a == b
  {
    forall i | 0 <= i < |a|
      ensures a[i] == b[i]
    {
      assert Chars(a)[i] == a[i] as char && Chars(b)[i] == b[i] as char;
    }
  }

  /** The name `''`, as bytes. */
  const QUOTES: seq<byte> := [39, 39]

  /** The only different events that print alike: one has no name, the other is named by two quotes. */
  lemma SameIff(a: RawEvent, b: RawEvent)
    ensures Same(a, b) <==>
            a == b || (a.(name := []) == b.(name := []) &&
                ((a.name == [] && b.name == QUOTES) || (a.name == QUOTES && b.name == [])))
  {
    assert Chars(QUOTES) == "''";
    if Shown(a.name) == Shown(b.name) {
      if a.name != [] && b.name != [] {
        CharsInjective(a.name, b.name);
      } else if a.name != [] {
        CharsInjective(a.name, QUOTES);
      } else if b.name != [] {
        CharsInjective(b.name, QUOTES);
      }
    }
  }

  // ---- Coalescing ----

  /** The events of `es` that are the first of their kind behind those of `batch`. */
  function NewIn(batch: seq<RawEvent>, es: seq<RawEvent>): seq<RawEvent> {
    if es == [] then []
    else
      var front, last := es[..|es| - 1], es[|es| - 1];
      NewIn(batch, front) + if Seen(batch + front, last) then [] else [last]
  }

  /** What joins the queue when `es` are read behind the batch. */
  function Queued(coalesce: bool, batch: seq<RawEvent>, es: seq<RawEvent>): seq<RawEvent> {
    if coalesce then NewIn(batch, es) else es
  }

  function Printed(es: seq<RawEvent>): set<string> {
    set e | e in es :: Str(e)
  }

  lemma PrintedAppend(es: seq<RawEvent>, e: RawEvent)
    ensures Printed(es + [e]) == Printed(es) + {Str(e)}
    ensures Str(e) in Printed(es) ==> Printed(es + [e]) == Printed(es)
  {
    assert forall a :: a in es + [e] <==> a in es || a == e;
  }

  class Notifier {
    /** How the records are laid out on this machine. */
    const parse: Parser
    const threshold: nat
    var coalesce: bool
    var eventq: seq<RawEvent>
    var eventset: set<string>
    /** The events read since the set was last cleared. */
    ghost var batch: seq<RawEvent>

    ghost predicate Valid()
      reads this
    {
      coalesce ==> eventset == Printed(batch)
    }

    constructor (endian: Endian, threshold: nat)
      ensures Valid() && !coalesce && eventq == [] && eventset == {} && batch == []
      ensures parse == ParserOf(endian) && this.threshold == threshold
    {
      parse, this.threshold, coalesce, eventq, eventset, batch := ParserOf(endian), threshold, false, [], {}, [];
    }

    /** Turning coalescing on or off; the set is empty whenever it is off. */
    method CoalesceEvents(on: bool)
      requires Valid() && (!coalesce ==> eventset == {} && batch == [])
      modifies this
      ensures Valid() && coalesce == on && eventq == old(eventq)
      ensures !on ==> eventset == {} && batch == []
      ensures on ==> batch == old(batch)
    {
      coalesce := on;
      if !on {
        eventset, batch := {}, [];
      }
    }

    /** The end of `process_events`, after which every event is new again. */
    method EndBatch()
      requires Valid()
      modifies this
      ensures Valid() && eventq == old(eventq) && coalesce == old(coalesce)
      ensures coalesce ==> eventset == {} && batch == []
    {
      if coalesce {
        eventset, batch := {}, [];
      }
    }

    method Enqueue(rawevent: RawEvent)
      requires Valid()
      modifies this
      ensures Valid() && coalesce == old(coalesce)
      ensures batch == if coalesce then old(batch) + [rawevent] else old(batch)
      ensures eventq == old(eventq) + Queued(coalesce, old(batch), [rawevent])
      ensures eventq == if coalesce && Seen(old(batch), rawevent) then old(eventq) else old(eventq) + [rawevent]
    {
      NewInOne(batch, rawevent);
      if coalesce {
        var raweventstr := Str(rawevent);
        SeenIffPrinted(batch, rawevent);
        PrintedAppend(batch, rawevent);
        if raweventstr !in eventset {
          eventset := eventset + {raweventstr};
          eventq := eventq + [rawevent];
        }
        batch := batch + [rawevent];
      } else {
        eventq := eventq + [rawevent];
      }
    }

    /**
     `read_events` on the block `r` that was read for `queue_size` announced bytes.  Nothing is
     read below the threshold.  `ok` is false when a record is cut short, which raises an
     error after the complete records before it have been queued.
     */
    method ReadEvents(r: seq<byte>, queue_size: nat) returns (ok: bool)
      requires Valid()
      modifies this
      ensures Valid() && coalesce == old(coalesce)
      ensures queue_size < threshold ==> ok && eventq == old(eventq) && eventset == old(eventset) && batch == old(batch)
      ensures queue_size >= threshold ==>
                var (events, all) := ParseBlock(parse, r, 0, queue_size);
                && ok == all
                && eventq == old(eventq) + (if coalesce then NewIn(old(batch), events) else events)
                && batch == (if coalesce then old(batch) + events else old(batch))
    {
      if queue_size < threshold {
        return true;
      }
      var rsum := 0;
      ghost var done: seq<RawEvent> := [];
      ghost var batch0 := batch;
      assert Queued(coalesce, batch0, []) == [];
      assert [] + ParseBlock(parse, r, 0, queue_size).0 == ParseBlock(parse, r, 0, queue_size).0;
      while rsum < queue_size
        invariant Valid() && coalesce == old(coalesce)
        invariant Progress(parse, r, queue_size, rsum, done)
        invariant eventq == old(eventq) + Queued(coalesce, batch0, done)
        invariant batch == if coalesce then batch0 + done else batch0
        decreases queue_size - rsum
      {
        NextRecord(parse, r, queue_size, rsum, done);
        var record := parse(r, rsum);
        if record.None? {
          return false;
        }
        var (rawevent, fname_len) := record.value;
        QueuedAppend(coalesce, old(eventq), batch0, done, rawevent);
        Enqueue(rawevent);
        done := done + [rawevent];
        rsum := rsum + HEADER + fname_len;
      }
      NoRecord(parse, r, queue_size, rsum, done);
      ok := true;
    }
  }

  /** `done` are the records in front of `at`; the others are still to come. */
  ghost predicate Progress(parse: Parser, r: seq<byte>, size: nat, at: nat, done: seq<RawEvent>) {
    ParseBlock(parse, r, 0, size) == (done + ParseBlock(parse, r, at, size).0, ParseBlock(parse, r, at, size).1)
  }

  lemma NextRecord(parse: Parser, r: seq<byte>, size: nat, at: nat, done: seq<RawEvent>)
    requires Progress(parse, r, size, at, done) && at < size
    ensures match parse(r, at)
            case None => ParseBlock(parse, r, 0, size) == (done, false)
            case Some((e, len)) => Progress(parse, r, size, at + HEADER + len, done + [e])
  {
    match parse(r, at)
    case None => assert done + [] == done;
    case Some((e, len)) => Assoc(done, [e], ParseBlock(parse, r, at + HEADER + len, size).0);
  }

  lemma NoRecord(parse: Parser, r: seq<byte>, size: nat, at: nat, done: seq<RawEvent>)
    requires Progress(parse, r, size, at, done) && at >= size
    ensures ParseBlock(parse, r, 0, size) == (done, true)
  {
    assert done + [] == done;
  }

  lemma NewInOne(batch: seq<RawEvent>, e: RawEvent)
    ensures NewIn(batch, [e]) == if Seen(batch, e) then [] else [e]
  {
    assert [e][..0] == [] && batch + [] == batch && NewIn(batch, []) == [];
  }

  lemma SeenIffPrinted(batch: seq<RawEvent>, e: RawEvent)
    ensures Str(e) in Printed(batch) <==> Seen(batch, e)
  {
    forall a ensures Str(a) == Str(e) <==> Same(a, e) {
      StrInjective(a, e);
    }
  }

  lemma QueuedAppend(coalesce: bool, queue: seq<RawEvent>, batch: seq<RawEvent>, done: seq<RawEvent>, e: RawEvent)
    ensures queue + Queued(coalesce, batch, done + [e]) ==
            queue + Queued(coalesce, batch, done) + Queued(coalesce, if coalesce then batch + done else batch, [e])
    ensures batch + (done + [e]) == batch + done + [e]
  {
    NewInAppend(batch, done, e);
    Assoc(queue, Queued(coalesce, batch, done), Queued(coalesce, if coalesce then batch + done else batch, [e]));
    Assoc(batch, done, [e]);
  }

  lemma NewInAppend(batch: seq<RawEvent>, done: seq<RawEvent>, e: RawEvent)
    ensures NewIn(batch, done + [e]) == NewIn(batch, done) + NewIn(batch + done, [e])
  {
    assert (done + [e])[..|done|] == done;
    NewInOne(batch + done, e);
  }

  // ---- Properties ----

  /** Several reads of one batch queue what one read of all their events would queue. */
  lemma {:induction false} NewInConcat(batch: seq<RawEvent>, a: seq<RawEvent>, b: seq<RawEvent>)
    ensures NewIn(batch, a + b) == NewIn(batch, a) + NewIn(batch + a, b)
    decreases |b|
  {
    if b == [] {
      assert a + b == a;
      assert NewIn(batch + a, b) == [];
    } else {
      var front, last := b[..|b| - 1], b[|b| - 1];
      NewInConcat(batch, a, front);
      assert (a + b)[..|a + b| - 1] == a + front && (a + b)[|a + b| - 1] == last;
      assert batch + (a + front) == batch + a + front;
    }
  }

  predicate Seen(es: seq<RawEvent>, e: RawEvent) {
    exists a | a in es :: Same(a, e)
  }

  /** `e` occurs in `es`, and nothing before it prints alike. */
  predicate FirstOfItsKind(es: seq<RawEvent>, e: RawEvent) {
    exists i | 0 <= i < |es| :: es[i] == e && !Seen(es[..i], e)
  }

  lemma FirstOfItsKindStep(front: seq<RawEvent>, last: RawEvent, e: RawEvent)
    ensures FirstOfItsKind(front + [last], e) <==> FirstOfItsKind(front, e) || (e == last && !Seen(front, last))
  {
    var es := front + [last];
    assert es[..|front|] == front;
    assert forall i | 0 <= i <= |front| :: es[..i] == front[..i];
    if FirstOfItsKind(front, e) {
      var i :| 0 <= i < |front| && front[i] == e && !Seen(front[..i], e);
      assert es[i] == e && !Seen(es[..i], e);
    }
    if e == last && !Seen(front, last) {
      assert es[|front|] == e && !Seen(es[..|front|], e);
    }
  }

  /** An event is queued exactly if it is the first of its kind and the batch has not seen its kind. */
  lemma {:induction false} NewInFirstOccurrences(batch: seq<RawEvent>, es: seq<RawEvent>, e: RawEvent)
    ensures e in NewIn(batch, es) <==> !Seen(batch, e) && FirstOfItsKind(es, e)
    decreases |es|
  {
    if es != [] {
      var front, last := es[..|es| - 1], es[|es| - 1];
      assert es == front + [last];
      NewInFirstOccurrences(batch, front, e);
      FirstOfItsKindStep(front, last, e);
      assert Seen(batch + front, last) <==> Seen(batch, last) || Seen(front, last);
    }
  }

  /** Among the queued events no two print alike, and all were read. */
  lemma {:induction false} NewInDistinct(batch: seq<RawEvent>, es: seq<RawEvent>)
    ensures forall x | x in NewIn(batch, es) :: x in es
    ensures forall i, j | 0 <= i < j < |NewIn(batch, es)| :: !Same(NewIn(batch, es)[i], NewIn(batch, es)[j])
    decreases |es|
  {
    if es != [] {
      NewInDistinct(batch, es[..|es| - 1]);
    }
  }

  /** A record of `e`, with any number of NULs behind the name. */
  predicate IsFrame(format: Format, f: seq<byte>, e: RawEvent) {
    |f| >= HEADER && format.head(f[..HEADER]) == (e.wd, e.mask, e.cookie, |f| - HEADER) &&
        format.name(f[HEADER..]) == e.name
  }

  /** The block has `f` at `at`. */
  predicate HasAt(r: seq<byte>, at: nat, f: seq<byte>) {
    at + |f| <= |r| && r[at..at + |f|] == f
  }

  /** Wherever a block has `f`, the record of `e` is read, and `f` is all of it. */
  ghost predicate ReadAs(parse: Parser, f: seq<byte>, e: RawEvent) {
    |f| >= HEADER && forall r, at: nat | HasAt(r, at, f) :: parse(r, at) == Some((e, |f| - HEADER))
  }

  /** Read in one batch, the second of such events is lost: it carries the name of two quotes. */
  lemma QuotedNameLost(wd: int, mask: nat, cookie: nat)
    ensures var a, b := RawEvent(wd, mask, cookie, []), RawEvent(wd, mask, cookie, QUOTES);
            a != b && NewIn([], [a, b]) == [a]
  {
    var a, b := RawEvent(wd, mask, cookie, []), RawEvent(wd, mask, cookie, QUOTES);
    SameIff(a, b);
    NewInOne([], a);
    assert [a, b][..1] == [a] && [] + [a] == [a];
    assert a in [a] && Seen([a], b);
  }

  /** `at` are the positions of the events that are first of their kind, and these are `queued`. */
  ghost predicate InOrder(batch: seq<RawEvent>, es: seq<RawEvent>, queued: seq<RawEvent>, at: seq<nat>) {
    && |at| == |queued|
    && (forall i | 0 <= i < |at| :: at[i] < |es| && es[at[i]] == queued[i])
    && (forall i, j | 0 <= i < j < |at| :: at[i] < at[j])
    && (forall k | 0 <= k < |es| :: k in at <==> !Seen(batch + es[..k], es[k]))
  }

  lemma InOrderStep(batch: seq<RawEvent>, es: seq<RawEvent>, queued: seq<RawEvent>, at: seq<nat>, e: RawEvent)
    requires InOrder(batch, es, queued, at)
    ensures if Seen(batch + es, e) then InOrder(batch, es + [e], queued, at)
            else InOrder(batch, es + [e], queued + [e], at + [|es|])
  {
    var more := es + [e];
    forall k: nat | k < |es| ensures more[..k] == es[..k] && more[k] == es[k] {
    }
    assert more[..|es|] == es && more[|es|] == e;
    assert |es| !in at;
  }

  /** What is queued are the events that are first of their kind, in the order in which they were read. */
  lemma {:induction false} NewInOrder(batch: seq<RawEvent>, es: seq<RawEvent>) returns (at: seq<nat>)
    ensures InOrder(batch, es, NewIn(batch, es), at)
  {
    at := [];
    if es != [] {
      var front, last := es[..|es| - 1], es[|es| - 1];
      at := NewInOrder(batch, front);
      InOrderStep(batch, front, NewIn(batch, front), at, last);
      assert front + [last] == es;
      if !Seen(batch + front, last) {
        at := at + [|front|];
      } else {
        assert NewIn(batch, front) + [] == NewIn(batch, front);
      }
    }
  }

  /** One record at any place of a block is read back, and reading goes on behind it. */
  lemma RecordRoundTrip(en: Endian, e: RawEvent, pad: nat)
    requires Fits(e, pad)
    ensures ReadAs(ParserOf(en), Frame(en, e, pad), e)
  {
    FieldsOf(en, e, pad);
    FrameOf(FormatOf(en), en, e, pad);
  }

  lemma FieldsOf(en: Endian, e: RawEvent, pad: nat)
    requires Fits(e, pad)
    ensures FormatOf(en).head(Head(en, e, pad)) == (e.wd, e.mask, e.cookie, |e.name + Zeros(pad)|)
    ensures FormatOf(en).name(e.name + Zeros(pad)) == e.name
  {
    HeadFields(en, e, pad);
    StripPadded(e.name, pad);
    FormatMeaning(en, Head(en, e, pad), e.name + Zeros(pad));
  }

  lemma FormatMeaning(en: Endian, head: seq<byte>, bname: seq<byte>)
    ensures FormatOf(en).head(head) == UnpackHeader(en, head) && FormatOf(en).name(bname) == StripNuls(bname)
  {
  }

  lemma FrameOf(format: Format, en: Endian, e: RawEvent, pad: nat)
    requires Fits(e, pad) && format.head(Head(en, e, pad)) == (e.wd, e.mask, e.cookie, |e.name + Zeros(pad)|)
    requires format.name(e.name + Zeros(pad)) == e.name
    ensures ReadAs(ParserFor(format), Frame(en, e, pad), e)
  {
    FrameReadAs(format, Head(en, e, pad), e.name + Zeros(pad), e);
  }

  lemma FrameReadAs(format: Format, head: seq<byte>, body: seq<byte>, e: RawEvent)
    requires |head| == HEADER && format.head(head) == (e.wd, e.mask, e.cookie, |body|) && format.name(body) == e.name
    ensures ReadAs(ParserFor(format), head + body, e)
  {
    var f := head + body;
    Parts(format, head, body, e);
    forall r, at: nat | HasAt(r, at, f) ensures ParserFor(format)(r, at) == Some((e, |f| - HEADER)) {
      FrameRead(format, f, e, r, at);
    }
  }

  lemma FrameRead(format: Format, f: seq<byte>, e: RawEvent, r: seq<byte>, at: nat)
    requires IsFrame(format, f, e) && HasAt(r, at, f)
    ensures ParseRecord(format, r, at) == Some((e, |f| - HEADER))
  {
    SlicesOf(r, at, f, HEADER);
    ParseFields(format, r, at, f[..HEADER], f[HEADER..], e);
  }

  lemma SlicesOf(r: seq<byte>, at: nat, f: seq<byte>, n: nat)
    requires HasAt(r, at, f) && n <= |f|
    ensures Slice(r, at, at + n) == f[..n] && Slice(r, at + n, at + n + |f[n..]|) == f[n..]
  {
    assert r[at..at + n] == r[at..at + |f|][..n];
    assert r[at + n..at + |f|] == r[at..at + |f|][n..];
  }

  lemma Parts(format: Format, head: seq<byte>, body: seq<byte>, e: RawEvent)
    requires |head| == HEADER && format.head(head) == (e.wd, e.mask, e.cookie, |body|) && format.name(body) == e.name
    ensures IsFrame(format, head + body, e)
  {
    assert (head + body)[..HEADER] == head && (head + body)[HEADER..] == body;
  }

  lemma ParseFields(format: Format, r: seq<byte>, at: nat, head: seq<byte>, body: seq<byte>, e: RawEvent)
    requires |head| == HEADER && format.head(head) == (e.wd, e.mask, e.cookie, |body|) && format.name(body) == e.name
    requires Slice(r, at, at + HEADER) == head && Slice(r, at + HEADER, at + HEADER + |body|) == body
    ensures ParseRecord(format, r, at) == Some((e, |body|))
  {
  }

  lemma HeadFields(en: Endian, e: RawEvent, pad: nat)
    requires Fits(e, pad)
    ensures UnpackHeader(en, Head(en, e, pad)) == (e.wd, e.mask, e.cookie, |e.name| + pad)
  {
    PowerValues();
    Quarters(Encode(en, Unsigned(e.wd, 4), 4), Encode(en, e.mask, 4), Encode(en, e.cookie, 4),
        Encode(en, |e.name| + pad, 4));
    DecodeEncode(en, Unsigned(e.wd, 4), 4);
    DecodeEncode(en, e.mask, 4);
    DecodeEncode(en, e.cookie, 4);
    DecodeEncode(en, |e.name| + pad, 4);
  }

  lemma Quarters(a: seq<byte>, b: seq<byte>, c: seq<byte>, d: seq<byte>)
    requires |a| == 4 && |b| == 4 && |c| == 4 && |d| == 4
    ensures var head := a + b + c + d;
            head[0..4] == a && head[4..8] == b && head[8..12] == c && head[12..16] == d
  {
  }

  /** The frames from `i` on are in the block from `at` to `end`. */
  predicate Laid(fs: seq<seq<byte>>, i: nat, r: seq<byte>, at: nat, end: nat)
    decreases |fs| - i
  {
    if i >= |fs| then at == end else HasAt(r, at, fs[i]) && Laid(fs, i + 1, r, at + |fs[i]|, end)
  }

  lemma {:induction false} LaidConcat(fs: seq<seq<byte>>, i: nat, r: seq<byte>, at: nat, tail: seq<byte>)
    requires i <= |fs| && at <= |r| && r[at..] == Concat(fs[i..]) + tail
    ensures Laid(fs, i, r, at, |r| - |tail|)
    decreases |fs| - i
  {
    if i < |fs| {
      assert fs[i..][1..] == fs[i + 1..];
      Assoc(fs[i], Concat(fs[i + 1..]), tail);
      FirstFrame(r, at, fs[i], Concat(fs[i + 1..]) + tail);
      LaidConcat(fs, i + 1, r, at + |fs[i]|, tail);
    } else {
      assert r[at..] == tail;
    }
  }

  lemma {:induction false} LaidEnd(fs: seq<seq<byte>>, i: nat, r: seq<byte>, at: nat, end: nat)
    requires Laid(fs, i, r, at, end)
    ensures at <= end
    decreases |fs| - i
  {
    if i < |fs| {
      LaidEnd(fs, i + 1, r, at + |fs[i]|, end);
    }
  }

  /** The records that are laid out are read, and then what follows. */
  lemma {:induction false} LaidRead(parse: Parser, fs: seq<seq<byte>>, es: seq<RawEvent>, i: nat, r: seq<byte>,
                                    at: nat, end: nat, size: nat)
    requires i <= |fs| == |es| && forall j | 0 <= j < |fs| :: ReadAs(parse, fs[j], es[j])
    requires Laid(fs, i, r, at, end) && end <= size
    ensures var (more, all) := ParseBlock(parse, r, end, size); ParseBlock(parse, r, at, size) == (es[i..] + more, all)
    decreases |fs| - i
  {
    var more := ParseBlock(parse, r, end, size).0;
    if i < |fs| {
      LaidEnd(fs, i + 1, r, at + |fs[i]|, end);
      ReadStep(parse, fs[i], es[i], r, at, size);
      LaidRead(parse, fs, es, i + 1, r, at + |fs[i]|, end, size);
      Cons(es, i);
      Assoc([es[i]], es[i + 1..], more);
    } else {
      assert es[i..] + more == more;
    }
  }

  lemma ReadStep(parse: Parser, f: seq<byte>, e: RawEvent, r: seq<byte>, at: nat, size: nat)
    requires ReadAs(parse, f, e) && HasAt(r, at, f) && at < size
    ensures var (more, all) := ParseBlock(parse, r, at + |f|, size); ParseBlock(parse, r, at, size) == ([e] + more, all)
  {
  }

  lemma Cons(es: seq<RawEvent>, i: nat)
    requires i < |es|
    ensures [es[i]] + es[i + 1..] == es[i..]
  {
  }

  lemma FirstFrame(r: seq<byte>, at: nat, f: seq<byte>, rest: seq<byte>)
    requires at <= |r| && r[at..] == f + rest
    ensures HasAt(r, at, f) && r[at + |f|..] == rest
  {
    var tail := r[at..];
    assert tail[..|f|] == f && tail[|f|..] == rest;
    assert r[at..at + |f|] == tail[..|f|] && r[at + |f|..] == tail[|f|..];
  }

  /** The records of some events, each with its own padding. */
  function Encoded(en: Endian, es: seq<RawEvent>, pads: seq<nat>): (fs: seq<seq<byte>>)
    requires |pads| == |es| && forall i | 0 <= i < |es| :: Fits(es[i], pads[i])
    ensures |fs| == |es| && forall i | 0 <= i < |es| :: fs[i] == Frame(en, es[i], pads[i])
  {
    seq(|es|, i requires 0 <= i < |es| => Frame(en, es[i], pads[i]))
  }

  /** A block that starts with the records of some events: they are read first, and then what follows. */
  lemma RecordsFirst(en: Endian, es: seq<RawEvent>, pads: seq<nat>, before: seq<byte>, tail: seq<byte>, size: nat)
    requires |pads| == |es| && forall i | 0 <= i < |es| :: Fits(es[i], pads[i])
    requires |before + Concat(Encoded(en, es, pads))| <= size
    ensures var r, end := before + (Concat(Encoded(en, es, pads)) + tail), |before + Concat(Encoded(en, es, pads))|;
            var (more, all) := ParseBlock(ParserOf(en), r, end, size);
            ParseBlock(ParserOf(en), r, |before|, size) == (es + more, all)
  {
    var fs := Encoded(en, es, pads);
    forall i | 0 <= i < |fs| ensures ReadAs(ParserOf(en), fs[i], es[i]) {
      RecordRoundTrip(en, es[i], pads[i]);
    }
    FramesFirst(ParserOf(en), fs, es, before, tail, size);
  }

  lemma FramesFirst(parse: Parser, fs: seq<seq<byte>>, es: seq<RawEvent>, before: seq<byte>, tail: seq<byte>, size: nat)
    requires |fs| == |es| && forall i | 0 <= i < |es| :: ReadAs(parse, fs[i], es[i])
    requires |before + Concat(fs)| <= size
    ensures var r, end := before + (Concat(fs) + tail), |before + Concat(fs)|;
            var (more, all) := ParseBlock(parse, r, end, size); ParseBlock(parse, r, |before|, size) == (es + more, all)
  {
    Behind(before, Concat(fs) + tail);
    assert es[0..] == es && fs[0..] == fs;
    var r := before + (Concat(fs) + tail);
    LaidConcat(fs, 0, r, |before|, tail);
    LaidRead(parse, fs, es, 0, r, |before|, |before + Concat(fs)|, size);
  }

  lemma Behind(a: seq<byte>, b: seq<byte>)
    ensures (a + b)[|a|..] == b
  {
  }

  /** A block of any records, padded in any way, is consumed exactly and gives every record back. */
  lemma BlockRoundTrip(en: Endian, es: seq<RawEvent>, pads: seq<nat>, before: seq<byte>)
    requires |pads| == |es| && forall i | 0 <= i < |es| :: Fits(es[i], pads[i])
    ensures var r := before + Concat(Encoded(en, es, pads));
            ParseBlock(ParserOf(en), r, |before|, |r|) == (es, true)
  {
    var text := Concat(Encoded(en, es, pads));
    assert text + [] == text && es + [] == es;
    RecordsFirst(en, es, pads, before, [], |before + text|);
  }

  /** A record of which bytes are missing is none, wherever it is cut. */
  lemma CutShort(en: Endian, e: RawEvent, pad: nat, before: seq<byte>, n: nat)
    requires Fits(e, pad) && n < |Frame(en, e, pad)|
    ensures ParserOf(en)(before + Frame(en, e, pad)[..n], |before|).None?
  {
    var f, head := Frame(en, e, pad), Head(en, e, pad);
    HeadFields(en, e, pad);
    assert f[..HEADER] == head;
    PartRead(FormatOf(en), before, f, n, |e.name| + pad);
  }

  lemma PartRead(format: Format, before: seq<byte>, f: seq<byte>, n: nat, len: nat)
    requires n < |f| == HEADER + len && format.head(f[..HEADER]).3 == len
    ensures ParseRecord(format, before + f[..n], |before|).None?
  {
    var r := before + f[..n];
    if n >= HEADER {
      assert r[|before|..|before| + HEADER] == f[..HEADER];
      assert |Slice(r, |before| + HEADER, |before| + HEADER + len)| == n - HEADER;
    }
  }

  /** The records before one that is cut short are read; then an error is raised. */
  lemma BlockCutShort(en: Endian, es: seq<RawEvent>, pads: seq<nat>, e: RawEvent, pad: nat, n: nat, size: nat)
    requires |pads| == |es| && (forall i | 0 <= i < |es| :: Fits(es[i], pads[i])) && Fits(e, pad)
    requires n < |Frame(en, e, pad)| && |Concat(Encoded(en, es, pads))| < size
    ensures ParseBlock(ParserOf(en), Concat(Encoded(en, es, pads)) + Frame(en, e, pad)[..n], 0, size) == (es, false)
  {
    var text, part := Concat(Encoded(en, es, pads)), Frame(en, e, pad)[..n];
    assert [] + text == text && [] + (text + part) == text + part && es + [] == es;
    RecordsFirst(en, es, pads, [], part, size);
    CutShort(en, e, pad, text, n);
  }
}
