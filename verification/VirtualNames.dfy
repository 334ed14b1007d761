/** The names under which BitBake addresses the variants of a recipe file. */
module VirtualNames {
  import opened Sequences
  import opened Text

  const COLON := ':'

  predicate HasMultiConfig(name: string) {
    StartsWith(name, "mc:") && Count(name, COLON) >= 2
  }

  /** The multiconfig of a name, and the name without it. */
  function SplitMultiConfig(name: string): (string, string) {
    if HasMultiConfig(name) then
      SplitAtMostLength(name, COLON, 2);
      var parts := SplitAtMost(name, COLON, 2);
      (parts[1], parts[2])
    else ("", name)
  }

  /** The recipe file and the class keyword of a name without multiconfig. */
  function SplitVirtual(name: string): (string, string) {
    if StartsWith(name, "virtual:") then
      VirtualParts(name);
      var elems := Split(name, COLON);
      (elems[|elems| - 1], Join(elems[1..|elems| - 1], COLON))
    else (name, "")
  }

  lemma VirtualParts(name: string)
    requires StartsWith(name, "virtual:")
    ensures |Split(name, COLON)| >= 2
  {
    SplitParts(name, COLON);
    assert name[7] == COLON;
    CountZero(name, COLON);
  }

  function Virtualfn2Realfn(virtualfn: string): (string, string, string) {
    var (mc, rest) := SplitMultiConfig(virtualfn);
    var (fn, cls) := SplitVirtual(rest);
    (fn, cls, mc)
  }

  function Realfn2Virtual(realfn: string, cls: string, mc: string): string {
    var name := if cls != "" then "virtual:" + cls + ":" + realfn else realfn;
    if mc != "" then "mc:" + mc + ":" + name else name
  }

  function Variant2Virtual(realfn: string, variant: string): string {
    if variant == "" then realfn
    else if HasMultiConfig(variant) then
      SplitParts(variant, COLON);
      var elems := Split(variant, COLON);
      if elems[2] != "" then "mc:" + elems[1] + ":virtual:" + Join(elems[2..], COLON) + ":" + realfn
      else "mc:" + elems[1] + ":" + realfn
    else "virtual:" + variant + ":" + realfn
  }

  lemma SplitTwo(a: string, b: string, rest: string, c: char)
    requires c !in a && c !in b
    ensures Split(a + [c] + (b + [c] + rest), c) == [a, b] + Split(rest, c)
    ensures Count(a + [c] + (b + [c] + rest), c) >= 2
  {
    var t := b + [c] + rest;
    SplitCut(a + [c] + t, a, t, c);
    SplitCut(t, b, rest, c);
    Assoc([a], [b], Split(rest, c));
    CountCut(a + [c] + t, a, t, c);
    CountCut(t, b, rest, c);
  }

  lemma SplitTwoAtMost(a: string, b: string, rest: string, c: char)
    requires c !in a && c !in b
    ensures SplitAtMost(a + [c] + (b + [c] + rest), c, 2) == [a, b, rest]
  {
    SplitTwo(a, b, rest, c);
    SplitParts(rest, c);
    RestJoined([a, b], Split(rest, c), rest, c);
  }

  lemma RestJoined(two: seq<string>, others: seq<string>, rest: string, c: char)
    requires |two| == 2 && others != [] && Join(others, c) == rest
    ensures var parts := two + others;
            (if |parts| <= 3 then parts else parts[..2] + [Join(parts[2..], c)]) == two + [rest]
  {
    assert (two + others)[..2] == two && (two + others)[2..] == others;
    if |others| == 1 {
      assert others == [rest];
    }
  }

  /** The three-way split of a name that starts with `mc:` and has another colon. */
  lemma SplitMc(mc: string, rest: string)
    requires COLON !in mc
    ensures HasMultiConfig("mc:" + mc + ":" + rest)
    ensures SplitAtMost("mc:" + mc + ":" + rest, COLON, 2) == ["mc", mc, rest]
    ensures Split("mc:" + mc + ":" + rest, COLON) == ["mc", mc] + Split(rest, COLON)
  {
    McParts(mc, rest);
    SplitTwo("mc", mc, rest, COLON);
    SplitTwoAtMost("mc", mc, rest, COLON);
  }

  lemma McParts(mc: string, rest: string)
    ensures "mc:" + mc + ":" + rest == "mc" + [COLON] + (mc + [COLON] + rest)
  {
  }

  /** Names with a multiconfig part are those of `SplitMc`; the guards of the source never fail. */
  lemma McForm(name: string) returns (mc: string, rest: string)
    requires HasMultiConfig(name)
    ensures COLON !in mc && name == "mc:" + mc + ":" + rest
  {
    var t := name[3..];
    assert name == "mc:" + t;
    CountAppend("mc:", t, COLON);
    assert Count("mc:", COLON) == 1 by {
      assert "mc:"[1..] == "c:" && "c:"[1..] == ":" && ":"[1..] == "";
    }
    CountZero(t, COLON);
    var k := IndexOf(t, COLON);
    mc, rest := t[..k], t[k + 1..];
    assert t == mc + [COLON] + rest;
  }

  lemma VirtualElems(cls: string, fn: string)
    requires COLON !in fn
    ensures Split("virtual:" + cls + ":" + fn, COLON) == ["virtual"] + Split(cls, COLON) + [fn]
  {
    var t := cls + [COLON] + fn;
    SplitCut("virtual:" + cls + ":" + fn, "virtual", t, COLON);
    SplitAppend(cls, fn, COLON);
    SplitNone(fn, COLON);
    Assoc(["virtual"], Split(cls, COLON), [fn]);
  }

  lemma Middle(a: string, b: seq<string>, c: string)
    ensures var s := [a] + b + [c]; s[|s| - 1] == c && s[1..|s| - 1] == b
  {
  }

  lemma VirtualForm(cls: string, fn: string)
    requires COLON !in fn
    ensures SplitVirtual("virtual:" + cls + ":" + fn) == (fn, cls)
  {
    SplitParts(cls, COLON);
    VirtualElems(cls, fn);
    Middle("virtual", Split(cls, COLON), fn);
  }

  /** The part of the name without the multiconfig. */
  function Unwrapped(realfn: string, cls: string): string {
    if cls != "" then "virtual:" + cls + ":" + realfn else realfn
  }

  /** What decoding a `virtual:` name can give back is free of colons, so shorter than the name. */
  lemma VirtualLoses(rest: string)
    requires StartsWith(rest, "virtual:")
    ensures |Split(rest, COLON)| >= 2 && COLON !in LastPart(rest, COLON) && LastPart(rest, COLON) != rest
  {
    VirtualParts(rest);
    SplitParts(rest, COLON);
    assert rest[7] == COLON;
  }

  lemma NotMc(s: string)
    requires s != "" && s[0] == 'v'
    ensures !StartsWith(s, "mc:")
  {
  }

  /** Exactly the triples that survive the round trip through a virtual name. */
  predicate Representable(fn: string, cls: string, mc: string) {
    && COLON !in mc
    && (if cls != "" then COLON !in fn
        else !StartsWith(fn, "virtual:") && (mc == "" ==> !HasMultiConfig(fn)))
  }

  lemma DecodeUnwrapped(fn: string, cls: string, mc: string)
    requires COLON !in mc && mc != ""
    ensures var (fn', cls', mc') := Virtualfn2Realfn(Realfn2Virtual(fn, cls, mc));
            mc' == mc && ((fn', cls') == (fn, cls) <==> if cls != "" then COLON !in fn else !StartsWith(fn, "virtual:"))
  {
    var rest := Unwrapped(fn, cls);
    SplitMc(mc, rest);
    assert SplitMultiConfig(Realfn2Virtual(fn, cls, mc)) == (mc, rest);
    UnwrappedIff(fn, cls);
  }

  lemma UnwrappedIff(fn: string, cls: string)
    ensures SplitVirtual(Unwrapped(fn, cls)) == (fn, cls) <==>
            if cls != "" then COLON !in fn else !StartsWith(fn, "virtual:")
  {
    var rest := Unwrapped(fn, cls);
    if cls != "" {
      if COLON !in fn {
        VirtualForm(cls, fn);
      } else {
        VirtualLoses(rest);
        assert SplitVirtual(rest).0 == LastPart(rest, COLON);
      }
    } else if StartsWith(fn, "virtual:") {
      VirtualLoses(rest);
    }
  }

  /** A virtual name gives back its recipe, class and multiconfig exactly if these are representable. */
  lemma RoundTrip(fn: string, cls: string, mc: string)
    ensures Virtualfn2Realfn(Realfn2Virtual(fn, cls, mc)) == (fn, cls, mc) <==> Representable(fn, cls, mc)
  {
    var rest := Unwrapped(fn, cls);
    var name := Realfn2Virtual(fn, cls, mc);
    if mc != "" && COLON !in mc {
      DecodeUnwrapped(fn, cls, mc);
    } else if mc != "" {
      var k := IndexOf(mc, COLON);
      var m, r := mc[..k], mc[k + 1..];
      assert name == "mc:" + m + ":" + (r + ":" + rest);
      SplitMc(m, r + ":" + rest);
    } else if HasMultiConfig(rest) {
      assert cls == "" by {
        if cls != "" {
          NotMc(rest);
        }
      }
      var m, r := McForm(fn);
      SplitMc(m, r);
      if StartsWith(r, "virtual:") {
        VirtualLoses(r);
        SplitParts(r, COLON);
        assert |LastPart(r, COLON)| <= |r| by { LastPartShorter(r); }
      }
    } else {
      UnwrappedIff(fn, cls);
    }
  }

  lemma {:induction false} LastPartShorter(s: string)
    ensures |LastPart(s, COLON)| <= |s|
    decreases |s|
  {
    var k := IndexOf(s, COLON);
    if k < |s| {
      LastPartShorter(s[k + 1..]);
    }
  }

  /** In particular for colon-free recipe names and multiconfigs, whatever the class keyword. */
  lemma RoundTripColonFree(fn: string, cls: string, mc: string)
    requires COLON !in fn && COLON !in mc
    ensures Virtualfn2Realfn(Realfn2Virtual(fn, cls, mc)) == (fn, cls, mc)
  {
    RoundTrip(fn, cls, mc);
    CountZero(fn, COLON);
    assert |fn| > 7 ==> fn[7] != COLON;
    assert "virtual:"[7] == COLON;
  }

  lemma {:induction false} JoinLast(parts: seq<string>, last: string, c: char)
    requires parts != []
    ensures Join(parts + [last], c) == Join(parts, c) + [c] + last
  {
    if |parts| > 1 {
      assert (parts + [last])[1..] == parts[1..] + [last];
      JoinLast(parts[1..], last, c);
    }
  }

  lemma Rebuilt(rest: string, middle: seq<string>, fn: string)
    requires Split(rest, COLON) == ["virtual"] + middle + [fn] && middle != []
    ensures rest == "virtual:" + Join(middle, COLON) + ":" + fn
  {
    SplitParts(rest, COLON);
    JoinAround("virtual", middle, fn, COLON);
    assert "virtual" + [COLON] == "virtual:" && [COLON] == ":";
  }

  lemma JoinAround(first: string, middle: seq<string>, last: string, c: char)
    requires middle != []
    ensures Join([first] + middle + [last], c) == first + [c] + Join(middle, c) + [c] + last
  {
    JoinLast([first] + middle, last, c);
    assert ([first] + middle)[1..] == middle;
  }

  lemma VirtualBack(rest: string)
    requires StartsWith(rest, "virtual:")
    ensures var (fn, cls) := SplitVirtual(rest);
            fn != rest && |fn| <= |rest| && (cls != "" ==> rest == "virtual:" + cls + ":" + fn)
  {
    VirtualLoses(rest);
    LastPartShorter(rest);
    VirtualFirst(rest);
    var elems := Split(rest, COLON);
    var middle := elems[1..|elems| - 1];
    if middle != [] {
      FirstMiddleLast(elems);
      Rebuilt(rest, middle, elems[|elems| - 1]);
    }
  }

  lemma FirstMiddleLast(s: seq<string>)
    requires |s| >= 2
    ensures s == [s[0]] + s[1..|s| - 1] + [s[|s| - 1]]
  {
  }

  /** Decoding and encoding a name without multiconfig: only an empty class gets lost. */
  lemma SplitVirtualBack(rest: string)
    ensures var (fn, cls) := SplitVirtual(rest);
            && (Unwrapped(fn, cls) == rest <==> !(StartsWith(rest, "virtual:") && cls == ""))
            && |Unwrapped(fn, cls)| <= |rest|
  {
    if StartsWith(rest, "virtual:") {
      VirtualBack(rest);
    }
  }

  lemma VirtualFirst(rest: string)
    requires StartsWith(rest, "virtual:")
    ensures Split(rest, COLON)[0] == "virtual"
  {
    assert rest == "virtual" + [COLON] + rest[8..];
    SplitFirst("virtual", rest[8..], COLON);
  }

  /**
   The other way round: a name is what its recipe, class and multiconfig are encoded as, except exactly those that
   spell out an empty multiconfig or an empty class.
   */
  lemma NameRoundTrip(name: string)
    ensures var (fn, cls, mc) := Virtualfn2Realfn(name);
            Realfn2Virtual(fn, cls, mc) == name <==>
            !(HasMultiConfig(name) && mc == "") && !(StartsWith(SplitMultiConfig(name).1, "virtual:") && cls == "")
  {
    if HasMultiConfig(name) {
      var m, rest := McForm(name);
      SplitMc(m, rest);
      SplitVirtualBack(rest);
      var (fn, cls) := SplitVirtual(rest);
      if "mc:" + m + ":" + Unwrapped(fn, cls) == name {
        Cancel("mc:" + m + ":", Unwrapped(fn, cls), rest);
      }
    } else {
      SplitVirtualBack(name);
    }
  }

  /** A variant without multiconfig is a class keyword. */
  lemma PlainVariant(fn: string, variant: string)
    requires !HasMultiConfig(variant)
    ensures Variant2Virtual(fn, variant) == Realfn2Virtual(fn, variant, "")
  {
  }

  /** A variant with a multiconfig agrees exactly if that is there and the class does not start with a colon. */
  lemma MultiConfigVariant(fn: string, cls: string, mc: string)
    requires COLON !in mc
    ensures Variant2Virtual(fn, "mc:" + mc + ":" + cls) == Realfn2Virtual(fn, cls, mc) <==>
            mc != "" && (cls == "" || cls[0] != COLON)
  {
    MultiConfigForm(fn, cls, mc);
    NameLength(fn, cls, mc);
    VirtualInMc(fn, cls, mc);
  }

  lemma NameLength(fn: string, cls: string, mc: string)
    ensures |Realfn2Virtual(fn, cls, mc)| ==
            |fn| + (if cls != "" then |cls| + 9 else 0) + (if mc != "" then |mc| + 4 else 0)
  {
  }

  lemma VirtualInMc(fn: string, cls: string, mc: string)
    ensures mc != "" ==> Realfn2Virtual(fn, cls, mc) == if cls == "" then "mc:" + mc + ":" + fn
                                                        else "mc:" + mc + ":virtual:" + cls + ":" + fn
  {
    var head := "mc:" + mc;
    assert head + ":" + ("virtual:" + cls + ":" + fn) == head + ":virtual:" + cls + ":" + fn;
  }

  lemma MultiConfigForm(fn: string, cls: string, mc: string)
    requires COLON !in mc
    ensures Variant2Virtual(fn, "mc:" + mc + ":" + cls) ==
            if cls == "" || cls[0] == COLON then "mc:" + mc + ":" + fn else "mc:" + mc + ":virtual:" + cls + ":" + fn
  {
    SplitMc(mc, cls);
    SplitParts(cls, COLON);
    var elems := Split("mc:" + mc + ":" + cls, COLON);
    assert elems[2..] == Split(cls, COLON);
    assert elems[2] == cls[..IndexOf(cls, COLON)];
  }

  /** The recipe is what follows the last colon of the name of any of its variants. */
  lemma VariantEndsInRecipe(fn: string, variant: string)
    requires COLON !in fn
    ensures LastPart(Variant2Virtual(fn, variant), COLON) == fn
    ensures Variant2Virtual(fn, variant) != fn ==> COLON in Variant2Virtual(fn, variant)
  {
    LastPartOf("", fn, COLON);
    if variant != "" {
      var name := Variant2Virtual(fn, variant);
      if name != fn {
        VariantForm(fn, variant);
        LastPartOf(name[..|name| - |fn| - 1], fn, COLON);
      }
    }
  }

  lemma VariantForm(fn: string, variant: string)
    requires variant != ""
    ensures var name := Variant2Virtual(fn, variant);
            |name| > |fn| && name == name[..|name| - |fn| - 1] + [COLON] + fn
  {
  }

  /** Variants of different recipes never have the same name. */
  lemma VariantsDoNotCollide(fn1: string, v1: string, fn2: string, v2: string)
    requires COLON !in fn1 && COLON !in fn2 && Variant2Virtual(fn1, v1) == Variant2Virtual(fn2, v2)
    ensures fn1 == fn2
  {
    VariantEndsInRecipe(fn1, v1);
    VariantEndsInRecipe(fn2, v2);
  }
}
