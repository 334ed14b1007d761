/** Python's string operations on one separator character. */
module Text {
  import opened Sequences

  predicate StartsWith(s: string, prefix: string) {
    prefix <= s
  }

  /** A prefix is what something, possibly nothing, may follow. */
  lemma StartsWithMeaning(s: string, prefix: string)
    ensures StartsWith(s, prefix) <==> exists rest :: s == prefix + rest
  {
    if StartsWith(s, prefix) {
      assert s == prefix + s[|prefix|..];
    }
  }

  /** `s.count(c)` */
  function Count(s: string, c: char): nat {
    if s == "" then 0 else (if s[0] == c then 1 else 0) + Count(s[1..], c)
  }

  /** `s.split(c)` */
  function Split(s: string, c: char): (parts: seq<string>)
    ensures |parts| >= 1
    decreases |s|
  {
    var k := IndexOf(s, c);
    if k == |s| then [s] else [s[..k]] + Split(s[k + 1..], c)
  }

  /** `c.join(parts)` */
  function Join(parts: seq<string>, c: char): string {
    if parts == [] then "" else if |parts| == 1 then parts[0] else parts[0] + [c] + Join(parts[1..], c)
  }

  /** `s.split(c, n)`: behind `n` separators the string is left as it is. */
  function SplitAtMost(s: string, c: char, n: nat): seq<string> {
    var parts := Split(s, c);
    if |parts| <= n + 1 then parts else parts[..n] + [Join(parts[n..], c)]
  }

  /** What follows the last `c`. */
  function LastPart(s: string, c: char): string {
    Split(s, c)[|Split(s, c)| - 1]
  }

  lemma {:induction false} CountAppend(s: string, t: string, c: char)
    ensures Count(s + t, c) == Count(s, c) + Count(t, c)
  {
    if s == "" {
      assert s + t == t;
    } else {
      assert (s + t)[1..] == s[1..] + t;
      CountAppend(s[1..], t, c);
    }
  }

  lemma {:induction false} CountZero(s: string, c: char)
    ensures Count(s, c) == 0 <==> c !in s
  {
    if s != "" {
      CountZero(s[1..], c);
      assert s == [s[0]] + s[1..];
    }
  }

  lemma SplitFirst(m: string, t: string, c: char)
    requires c !in m
    ensures Split(m + [c] + t, c) == [m] + Split(t, c)
  {
    IndexOfFirst(m, t, c);
    var s := m + [c] + t;
    assert s[..|m|] == m && s[|m| + 1..] == t;
  }

  lemma SplitNone(s: string, c: char)
    requires c !in s
    ensures Split(s, c) == [s]
  {
  }

  /** What stands before and behind the first separator. */
  lemma Cut(s: string, c: char) returns (m: string, r: string)
    requires c in s
    ensures s == m + [c] + r && c !in m && |r| < |s|
  {
    var k := IndexOf(s, c);
    m, r := s[..k], s[k + 1..];
  }

  lemma SplitCut(s: string, m: string, r: string, c: char)
    requires s == m + [c] + r && c !in m
    ensures Split(s, c) == [m] + Split(r, c)
  {
    SplitFirst(m, r, c);
  }

  /** Splitting distributes over a separator in the middle. */
  lemma {:induction false} SplitAppend(a: string, b: string, c: char)
    ensures Split(a + [c] + b, c) == Split(a, c) + Split(b, c)
    decreases |a|
  {
    if c !in a {
      SplitFirst(a, b, c);
      SplitNone(a, c);
    } else {
      var m, r := Cut(a, c);
      SplitAppend(r, b, c);
      SplitCut(a, m, r, c);
      CutAppend(a, m, r, b, c);
      SplitCut(a + [c] + b, m, r + [c] + b, c);
      Assoc([m], Split(r, c), Split(b, c));
    }
  }

  lemma CutAppend(a: string, m: string, r: string, b: string, c: char)
    requires a == m + [c] + r
    ensures a + [c] + b == m + [c] + (r + [c] + b)
  {
  }

  lemma CountCut(s: string, m: string, r: string, c: char)
    requires s == m + [c] + r && c !in m
    ensures Count(s, c) == Count(r, c) + 1
  {
    CountAppend(m + [c], r, c);
    CountAppend(m, [c], c);
    CountZero(m, c);
    assert Count([c], c) == 1;
  }

  lemma {:induction false} SplitParts(s: string, c: char)
    ensures forall i | 0 <= i < |Split(s, c)| :: c !in Split(s, c)[i]
    ensures Join(Split(s, c), c) == s
    ensures |Split(s, c)| == Count(s, c) + 1
    decreases |s|
  {
    if c !in s {
      SplitNone(s, c);
      CountZero(s, c);
    } else {
      var m, r := Cut(s, c);
      SplitParts(r, c);
      SplitCut(s, m, r, c);
      CountCut(s, m, r, c);
      assert Split(s, c)[1..] == Split(r, c);
    }
  }

  lemma SplitAtMostLength(s: string, c: char, n: nat)
    ensures |SplitAtMost(s, c, n)| == (if Count(s, c) < n then Count(s, c) else n) + 1
  {
    SplitParts(s, c);
  }

  /** Joining is undone by splitting, so it is injective on parts without the separator. */
  lemma {:induction false} SplitJoin(parts: seq<string>, c: char)
    requires parts != [] && forall i | 0 <= i < |parts| :: c !in parts[i]
    ensures Split(Join(parts, c), c) == parts
  {
    if |parts| == 1 {
      SplitNone(parts[0], c);
    } else {
      SplitJoin(parts[1..], c);
      SplitFirst(parts[0], Join(parts[1..], c), c);
    }
  }

  lemma LastPartOf(a: string, b: string, c: char)
    requires c !in b
    ensures LastPart(a + [c] + b, c) == b && LastPart(b, c) == b
  {
    SplitAppend(a, b, c);
    SplitNone(b, c);
  }
}
