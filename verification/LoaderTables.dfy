/** The two tables of the loader after relocation: the directories, and the lengths of their names. */
module LoaderTables {
  import opened Wrappers
  import opened Bytes
  import opened Relocate
  import opened RelocateProofs

  /** A name that survives in a table of NUL-terminated strings. */
  predicate Clean(p: seq<byte>) {
    p != [] && 0 !in p
  }

  lemma FindFirst(bs: seq<byte>, at: nat, k: nat)
    requires at <= k < |bs| && bs[k] == 0 && forall j | at <= j < k :: bs[j] != 0
    ensures FindNul(bs, at) == Some(k)
    decreases k - at
  {
    if at < k {
      FindFirst(bs, at + 1, k);
    }
  }

  /** The first name is read back if it is clean. */
  lemma FirstPath(p: seq<byte>, rest: seq<byte>)
    requires Clean(p)
    ensures Paths(p + [0] + rest) == [p] + Paths(rest)
  {
    var bs := p + [0] + rest;
    assert bs[0] == p[0] && bs[|p|] == 0;
    assert forall j | 0 <= j < |p| :: bs[j] == p[j];
    FindFirst(bs, 0, |p|);
    assert bs[..|p|] == p && bs[|p| + 1..] == rest;
  }

  /** The names come back from their table, whatever padding follows, exactly if each of them is clean. */
  lemma {:induction false} PathsOfStrings(ps: seq<seq<byte>>, n: nat)
    ensures Paths(Strings(ps) + Zeros(n)) == ps <==> forall p | p in ps :: Clean(p)
  {
    if ps == [] {
      assert Strings(ps) + Zeros(n) == Zeros(n);
    } else if Clean(ps[0]) {
      FirstPath(ps[0], Strings(ps[1..]) + Zeros(n));
      assert Strings(ps) + Zeros(n) == ps[0] + [0] + (Strings(ps[1..]) + Zeros(n));
      PathsOfStrings(ps[1..], n);
      assert ps == [ps[0]] + ps[1..];
      assert ([ps[0]] + Paths(Strings(ps[1..]) + Zeros(n)))[1..] == Paths(Strings(ps[1..]) + Zeros(n));
    } else {
      assert ps[0] in ps;
    }
  }

  /** A clean name stays clean when the new prefix is not empty and has no NUL. */
  lemma {:induction false} ReplaceClean(s: seq<byte>, from: seq<byte>, to: seq<byte>)
    requires from != [] && Clean(to) && 0 !in s
    ensures 0 !in Replace(s, from, to) && (s != [] ==> Replace(s, from, to) != [])
    decreases |s|
  {
    if s != [] {
      if from <= s {
        assert forall b | b in s[|from|..] :: b in s;
        ReplaceClean(s[|from|..], from, to);
      } else {
        assert forall b | b in s[1..] :: b in s;
        ReplaceClean(s[1..], from, to);
      }
    }
  }

  /** Substituted names read back from their table are those names exactly if substitution left each of them clean. */
  lemma NamesReadBack(before: seq<seq<byte>>, rule: Rule, table: seq<byte>, n: nat)
    requires forall p | p in before :: Clean(p)
    requires table == Strings(NewPaths(before, rule)) + Zeros(n)
    ensures Paths(table) == NewPaths(before, rule) <==> forall p | p in NewPaths(before, rule) :: Clean(p)
    ensures Clean(rule.to) ==> Paths(table) == NewPaths(before, rule)
  {
    var ps := NewPaths(before, rule);
    PathsOfStrings(ps, n);
    if Clean(rule.to) {
      forall p | p in ps ensures Clean(p) {
        var i :| 0 <= i < |ps| && ps[i] == p;
        assert before[i] in before;
        ReplaceClean(before[i], rule.from, rule.to);
      }
    }
  }

  /** The little-endian word at `at` is `n`. */
  predicate WordIs(d: seq<byte>, at: nat, w: nat, n: nat) {
    DecodeLittle(ReadAt(d, at, w)) == n
  }

  /** From `at` on there is the length of each name, one word after the other. */
  predicate WordsAre(d: seq<byte>, at: nat, w: nat, ps: seq<seq<byte>>)
    decreases |ps|
  {
    ps == [] || (WordIs(d, at, w, |ps[0]|) && WordsAre(d, at + w, w, ps[1..]))
  }

  /** Where word `i` of a table at `at` is. */
  function Nth(at: nat, i: nat, w: nat): nat {
    if i == 0 then at else Nth(at, i - 1, w) + w
  }

  lemma {:induction false} NthStep(at: nat, i: nat, w: nat)
    ensures Nth(at, i + 1, w) == Nth(at + w, i, w)
  {
    if i > 0 {
      NthStep(at, i - 1, w);
    }
  }

  lemma {:induction false} NthWord(d: seq<byte>, at: nat, w: nat, ps: seq<seq<byte>>, i: nat)
    requires WordsAre(d, at, w, ps) && i < |ps|
    ensures WordIs(d, Nth(at, i, w), w, |ps[i]|)
    decreases i
  {
    if i > 0 {
      NthStep(at, i - 1, w);
      NthWord(d, at + w, w, ps[1..], i - 1);
    }
  }

  /** Each word of the table of lengths is the length of its name. */
  lemma {:induction false} LengthsReadBack(d: seq<byte>, at: nat, ps: seq<seq<byte>>, w: nat)
    requires w > 0 && LengthsFit(ps, w) && ReadAt(d, at, |Lengths(ps, w)|) == Lengths(ps, w)
    ensures WordsAre(d, at, w, ps)
    decreases |ps|
  {
    if ps != [] {
      OthersFit(ps, w);
      FirstWord(d, at, |ps[0]|, w, Lengths(ps[1..], w));
      LengthsReadBack(d, at + w, ps[1..], w);
    }
  }

  lemma OthersFit(ps: seq<seq<byte>>, w: nat)
    requires ps != [] && LengthsFit(ps, w)
    ensures |ps[0]| < Pow256(w) && LengthsFit(ps[1..], w)
  {
    assert forall j | 0 <= j < |ps[1..]| :: |ps[1..][j]| == |ps[j + 1]|;
  }

  lemma FirstWord(d: seq<byte>, at: nat, n: nat, w: nat, rest: seq<byte>)
    requires w > 0 && n < Pow256(w)
    requires ReadAt(d, at, |EncodeLittle(n, w) + rest|) == EncodeLittle(n, w) + rest
    ensures WordIs(d, at, w, n) && ReadAt(d, at + w, |rest|) == rest
  {
    ReadParts(d, at, EncodeLittle(n, w), rest);
    WordValue(ReadAt(d, at, w), n, w);
  }

  lemma ReadParts(d: seq<byte>, at: nat, head: seq<byte>, tail: seq<byte>)
    requires head != [] && ReadAt(d, at, |head + tail|) == head + tail
    ensures ReadAt(d, at, |head|) == head && ReadAt(d, at + |head|, |tail|) == tail
  {
    var all := d[at..at + |head + tail|];
    assert all[..|head|] == head && all[|head|..] == tail;
    assert d[at..at + |head|] == all[..|head|] && d[at + |head|..at + |head| + |tail|] == all[|head|..];
  }

  lemma WordValue(word: seq<byte>, n: nat, w: nat)
    requires word == EncodeLittle(n, w) && n < Pow256(w)
    ensures DecodeLittle(word) == n
  {
    DecodeEncodeLittle(n, w);
  }

  /**
   Both tables of a relocated image agree.  The lengths are those of the substituted names; the
   names are read back as substituted exactly if substitution left each of them clean, as it does
   when the new prefix is not empty and has no NUL.
   */
  lemma TablesAgree(m: Image, d: seq<byte>, w: nat, a: nat, b: nat)
    requires TablesDone(m, d, w) && w > 0
    requires LastOf(m, Sysdirs, |m.entries|) == Some(a) && LastOf(m, Sysdirslen, |m.entries|) == Some(b)
    ensures var ps := NewPaths(Paths(Contents(m, m.data, a)), m.rule);
            && WordsAre(d, m.entries[b].sec.offset, w, ps)
            && (Paths(Contents(m, d, a)) == ps <==> forall p | p in ps :: Clean(p))
            && (Clean(m.rule.to) ==> Paths(Contents(m, d, a)) == ps)
  {
    var ps := Directories(m);
    NamesReadBack(Paths(Contents(m, m.data, a)), m.rule, Contents(m, d, a), m.entries[a].sec.size - |Strings(ps)|);
    LengthsReadBack(d, m.entries[b].sec.offset, ps, w);
  }

  lemma OldPrefixClean()
    ensures Clean(OldPrefix())
  {
    var text := "##DEFAULT_INSTALL_DIR##";
    forall i | 0 <= i < |text| ensures OldPrefix()[i] != 0 {
      assert text[i] == '#' || text[i] == '_' || 'A' <= text[i] <= 'Z';
    }
  }

  /** Installing into an empty prefix: a directory that is the built-in prefix itself cuts the table short. */
  lemma EmptyPrefixCutsTable(others: seq<seq<byte>>, n: nat)
    ensures var before, rule := [OldPrefix()] + others, InstallRule([]);
            && NewPaths(before, rule)[0] == []
            && Paths(Strings(NewPaths(before, rule)) + Zeros(n)) == []
  {
    OldPrefixClean();
    var before, rule := [OldPrefix()] + others, InstallRule([]);
    var ps := NewPaths(before, rule);
    assert OldPrefix()[|OldPrefix()|..] == [];
    assert Substitute(before[0], rule) == [];
    assert (Strings(ps) + Zeros(n))[0] == 0;
  }

  /** A directory table that outgrows its section overwrites what lies behind it; no check prevents that. */
  lemma TableOverruns(data: seq<byte>, ps: seq<seq<byte>>, w: nat, sec: Section, lensec: Section)
    requires LengthsFit(ps, w) && |Strings(ps)| > sec.size
    requires sec.offset + |Strings(ps)| <= lensec.offset && lensec.offset + |Lengths(ps, w)| <= |data|
    ensures var r := NewTables(data, ps, w, sec, lensec);
            && r.Ok? && |r.data| == |data|
            && r.data[sec.offset + sec.size..sec.offset + |Strings(ps)|] == Strings(ps)[sec.size..]
  {
    var text, lengths := Strings(ps), Lengths(ps, w);
    assert Filled(text, sec.size) == text by {
      assert text + [] == text;
    }
    var a, b := Region(sec.offset, |text|), Region(lensec.offset, |lengths|);
    assert InBounds(data, [a, b]);
    TwoWrites(data, a, b, text, lengths);
    PartOfText(NewTables(data, ps, w, sec, lensec).data, sec.offset, text, sec.size);
  }

  lemma PartOfText(data: seq<byte>, at: nat, text: seq<byte>, from: nat)
    requires at + |text| <= |data| && from <= |text| && ReadAt(data, at, |text|) == text
    ensures data[at + from..at + |text|] == text[from..]
  {
    assert data[at + from..at + |text|] == data[at..at + |text|][from..];
  }

  lemma OneDirectory(prefix: seq<byte>)
    ensures Paths(OldPrefix() + [0]) == [OldPrefix()]
    ensures NewPaths([OldPrefix()], InstallRule(prefix)) == [prefix] && Strings([prefix]) == prefix + [0]
  {
    OldPrefixClean();
    FirstPath(OldPrefix(), []);
    assert OldPrefix() + [0] + [] == OldPrefix() + [0];
    assert OldPrefix()[|OldPrefix()|..] == [] && prefix + [] == prefix;
    assert Substitute(OldPrefix(), InstallRule(prefix)) == prefix;
    assert [OldPrefix()][1..] == [] && [prefix][1..] == [] && prefix + [0] + [] == prefix + [0];
  }

  /** With one directory and a section just as long: any prefix longer than the built-in one does so. */
  lemma LongPrefixOverwrites(data: seq<byte>, h: Header, prefix: seq<byte>, sec: Section, lensec: Section)
    requires sec.size == 24 && |prefix| > 23 && |prefix| < Pow256(WordSize(h.arch))
    requires sec.offset + |prefix| + 1 <= lensec.offset
    requires lensec.offset + |Lengths([prefix], WordSize(h.arch))| <= |data|
    ensures var r := ChangeTables(data, h, InstallRule(prefix), Found(Some((OldPrefix() + [0], sec)), Some(lensec)));
            && r.Ok? && |r.data| == |data|
            && r.data[sec.offset + 24..sec.offset + |prefix| + 1] == (prefix + [0])[24..]
  {
    OneDirectory(prefix);
    assert LengthsFit([prefix], WordSize(h.arch));
    TableOverruns(data, [prefix], WordSize(h.arch), sec, lensec);
  }
}
