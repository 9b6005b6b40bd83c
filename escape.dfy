/** `EntityRenderer.escapeSpecialChars` of entity_parser.js: a fixed chain of
    global replacements that escapes the five XML-special characters and then
    restores the `<Entity:` and `<Morphism:` tags and every `>`. */
module Escape {
  import opened Strings

  /** `s.replace(/pat/g, rep)` for a literal, non-empty `pat`: the leftmost
      occurrence is replaced and the search goes on after it. */
  function ReplaceAll(s: string, pat: string, rep: string): string
    requires |pat| > 0
    decreases |s|
  {
    if |s| == 0 then []
    else if StartsWith(s, pat) then rep + ReplaceAll(s[|pat|..], pat, rep)
    else [s[0]] + ReplaceAll(s[1..], pat, rep)
  }

  /** The chain of lines 27-36. */
  function EscapeSpecialChars(s: string): string {
    var s1 := ReplaceAll(s, "&", "&amp;");
    var s2 := ReplaceAll(s1, "<", "&lt;");
    var s3 := ReplaceAll(s2, ">", "&gt;");
    var s4 := ReplaceAll(s3, "\"", "&quot;");
    var s5 := ReplaceAll(s4, "'", "&apos;");
    var s6 := ReplaceAll(s5, "&lt;Entity:", "<Entity:");
    var s7 := ReplaceAll(s6, "&lt;Morphism:", "<Morphism:");
    ReplaceAll(s7, "&gt;", ">")
  }

  // ---------------------------------------------------------------------
  // The reference: one input position at a time.

  /** What the chain does to an input that starts with `s[0]`, where `s` does
      not start with a tag: `&`, `<`, `"` and `'` are escaped, `>` survives. */
  function EscapeChar(c: char): string {
    if c == '&' then "&amp;"
    else if c == '<' then "&lt;"
    else if c == '"' then "&quot;"
    else if c == '\'' then "&apos;"
    else [c]
  }

  const EntityTag := "<Entity:"
  const MorphismTag := "<Morphism:"

  /** The net effect of the chain, read left to right: a tag is kept as it
      is, any other character goes through `EscapeChar`. */
  function Reference(s: string): string
    decreases |s|
  {
    if |s| == 0 then []
    else if StartsWith(s, EntityTag) then EntityTag + Reference(s[|EntityTag|..])
    else if StartsWith(s, MorphismTag) then MorphismTag + Reference(s[|MorphismTag|..])
    else EscapeChar(s[0]) + Reference(s[1..])
  }

  // ---------------------------------------------------------------------
  // The first five steps replace single characters.

  function Map(s: string, f: char -> string): string
    decreases |s|
  {
    if |s| == 0 then [] else f(s[0]) + Map(s[1..], f)
  }

  function Keep(c: char): string { [c] }
  function M1(c: char): string { if c == '&' then "&amp;" else [c] }
  function M2(c: char): string { if c == '<' then "&lt;" else M1(c) }
  function M3(c: char): string { if c == '>' then "&gt;" else M2(c) }
  function M4(c: char): string { if c == '"' then "&quot;" else M3(c) }
  function M5(c: char): string { if c == '\'' then "&apos;" else M4(c) }

  lemma {:induction false} MapKeep(s: string)
    ensures Map(s, Keep) == s
  {
    if |s| > 0 {
      MapKeep(s[1..]);
      assert s == [s[0]] + s[1..];
    }
  }

  /** A one-character replacement distributes over concatenation. */
  lemma {:induction false} ReplaceCharAppend(a: string, b: string, c: char, rep: string)
    ensures ReplaceAll(a + b, [c], rep) == ReplaceAll(a, [c], rep) + ReplaceAll(b, [c], rep)
  {
    if |a| > 0 {
      assert (a + b)[1..] == a[1..] + b;
      assert (a + b)[0] == a[0];
      ReplaceCharAppend(a[1..], b, c, rep);
      assert (a + b)[0..1] == [a[0]] && a[0..1] == [a[0]];
      var h := if a[0] == c then rep else [a[0]];
      assert ReplaceAll(a + b, [c], rep) == h + ReplaceAll(a[1..] + b, [c], rep);
      assert ReplaceAll(a, [c], rep) == h + ReplaceAll(a[1..], [c], rep);
    } else {
      assert a + b == b;
    }
  }

  lemma {:induction false} ReplaceCharMap(s: string, f: char -> string, c: char, rep: string, g: char -> string)
    requires forall x :: ReplaceAll(f(x), [c], rep) == g(x)
    ensures ReplaceAll(Map(s, f), [c], rep) == Map(s, g)
  {
    if |s| > 0 {
      ReplaceCharAppend(f(s[0]), Map(s[1..], f), c, rep);
      ReplaceCharMap(s[1..], f, c, rep, g);
    }
  }

  /** A text without `c` is left alone by the replacement of `c`. */
  lemma {:induction false} ReplaceCharAbsent(w: string, c: char, rep: string)
    requires c !in w
    ensures ReplaceAll(w, [c], rep) == w
  {
    if |w| > 0 {
      assert w[0..1] == [w[0]];
      ReplaceCharAbsent(w[1..], c, rep);
      assert w == [w[0]] + w[1..];
    }
  }

  lemma ReplaceCharSingle(x: char, c: char, rep: string)
    ensures ReplaceAll([x], [c], rep) == if x == c then rep else [x]
  {
    if x == c {
      assert StartsWith([x], [c]);
      assert [x][1..] == [];
    } else {
      assert [x][0..1] == [x];
    }
  }

  lemma Step1()
    ensures forall x :: ReplaceAll(Keep(x), "&", "&amp;") == M1(x)
  {
    forall x { ReplaceCharSingle(x, '&', "&amp;"); }
  }

  lemma Step2()
    ensures forall x :: ReplaceAll(M1(x), "<", "&lt;") == M2(x)
  {
    forall x ensures ReplaceAll(M1(x), "<", "&lt;") == M2(x) {
      if x == '&' { ReplaceCharAbsent("&amp;", '<', "&lt;"); } else { ReplaceCharSingle(x, '<', "&lt;"); }
    }
  }

  lemma Step3()
    ensures forall x :: ReplaceAll(M2(x), ">", "&gt;") == M3(x)
  {
    forall x ensures ReplaceAll(M2(x), ">", "&gt;") == M3(x) {
      if x == '&' { ReplaceCharAbsent("&amp;", '>', "&gt;"); }
      else if x == '<' { ReplaceCharAbsent("&lt;", '>', "&gt;"); }
      else { ReplaceCharSingle(x, '>', "&gt;"); }
    }
  }

  lemma Step4()
    ensures forall x :: ReplaceAll(M3(x), "\"", "&quot;") == M4(x)
  {
    forall x ensures ReplaceAll(M3(x), "\"", "&quot;") == M4(x) {
      if x == '&' { ReplaceCharAbsent("&amp;", '"', "&quot;"); }
      else if x == '<' { ReplaceCharAbsent("&lt;", '"', "&quot;"); }
      else if x == '>' { ReplaceCharAbsent("&gt;", '"', "&quot;"); }
      else { ReplaceCharSingle(x, '"', "&quot;"); }
    }
  }

  lemma Step5()
    ensures forall x :: ReplaceAll(M4(x), "'", "&apos;") == M5(x)
  {
    forall x ensures ReplaceAll(M4(x), "'", "&apos;") == M5(x) {
      if x == '&' { ReplaceCharAbsent("&amp;", '\'', "&apos;"); }
      else if x == '<' { ReplaceCharAbsent("&lt;", '\'', "&apos;"); }
      else if x == '>' { ReplaceCharAbsent("&gt;", '\'', "&apos;"); }
      else if x == '"' { ReplaceCharAbsent("&quot;", '\'', "&apos;"); }
      else { ReplaceCharSingle(x, '\'', "&apos;"); }
    }
  }

  /** After the first five steps every character has been replaced on its
      own, by `M5`. */
  lemma Steps1To5(s: string)
    ensures ReplaceAll(ReplaceAll(ReplaceAll(ReplaceAll(ReplaceAll(s, "&", "&amp;"), "<", "&lt;"), ">", "&gt;"), "\"", "&quot;"), "'", "&apos;")
      == Map(s, M5)
  {
    MapKeep(s);
    Step1();
    ReplaceCharMap(s, Keep, '&', "&amp;", M1);
    Step2();
    ReplaceCharMap(s, M1, '<', "&lt;", M2);
    Step3();
    ReplaceCharMap(s, M2, '>', "&gt;", M3);
    Step4();
    ReplaceCharMap(s, M3, '"', "&quot;", M4);
    Step5();
    ReplaceCharMap(s, M4, '\'', "&apos;", M5);
  }

  // ---------------------------------------------------------------------
  // The last three steps replace multi-character patterns.

  predicate Special(c: char) {
    c == '&' || c == '<' || c == '>' || c == '"' || c == '\''
  }

  /** No character of `w` is touched by the first five steps. */
  predicate Plain(w: string) {
    forall i :: 0 <= i < |w| ==> !Special(w[i])
  }

  lemma M5Head(c: char)
    ensures |M5(c)| > 0
    ensures M5(c)[0] == '&' || M5(c) == [c]
    ensures M5(c) == [c] <==> !Special(c)
    ensures '&' !in M5(c)[1..]
  {
  }

  /** After the first five steps, `s` with its tags restored one pattern at a
      time: `Stage6` after `<Entity:`, `Stage7` after `<Morphism:` too. */
  function Stage6(s: string): string
    decreases |s|
  {
    if |s| == 0 then []
    else if StartsWith(s, EntityTag) then EntityTag + Stage6(s[|EntityTag|..])
    else M5(s[0]) + Stage6(s[1..])
  }

  function Stage7(s: string): string
    decreases |s|
  {
    if |s| == 0 then []
    else if StartsWith(s, EntityTag) then EntityTag + Stage7(s[|EntityTag|..])
    else if StartsWith(s, MorphismTag) then MorphismTag + Stage7(s[|MorphismTag|..])
    else M5(s[0]) + Stage7(s[1..])
  }

  lemma {:induction false} MapAppend(a: string, b: string, f: char -> string)
    ensures Map(a + b, f) == Map(a, f) + Map(b, f)
  {
    if |a| > 0 {
      assert (a + b)[0] == a[0] && (a + b)[1..] == a[1..] + b;
      MapAppend(a[1..], b, f);
    } else {
      assert a + b == b;
    }
  }

  lemma {:induction false} MapPlain(w: string)
    requires Plain(w)
    ensures Map(w, M5) == w
  {
    if |w| > 0 {
      M5Head(w[0]);
      MapPlain(w[1..]);
      assert w == [w[0]] + w[1..];
    }
  }

  /** `pat` does not start `s` when they differ at position `k`. */
  lemma Mismatch(s: string, pat: string, k: nat)
    requires k < |pat| && (k >= |s| || s[k] != pat[k])
    ensures !StartsWith(s, pat)
  {
    if |pat| <= |s| {
      assert s[..|pat|][k] == s[k];
    }
  }

  lemma StartsWithCat(a: string, b: string)
    ensures StartsWith(a + b, a) && (a + b)[|a|..] == b
  {
    assert (a + b)[..|a|] == a;
  }

  lemma StartsWithTail(t: string, w: string)
    requires |t| > 0 && |w| > 0
    ensures StartsWith(t, w) <==> t[0] == w[0] && StartsWith(t[1..], w[1..])
  {
    if StartsWith(t, w) {
      assert t[1..][..|w| - 1] == t[..|w|][1..];
    }
    if t[0] == w[0] && StartsWith(t[1..], w[1..]) {
      assert t[..|w|] == [t[0]] + t[1..][..|w| - 1];
    }
  }

  /** A plain word starts `s` exactly when it starts the text `s` becomes. */
  lemma {:induction false} MapStarts(t: string, w: string)
    requires Plain(w)
    ensures StartsWith(Map(t, M5), w) <==> StartsWith(t, w)
  {
    if |w| > 0 && |t| > 0 {
      var m := Map(t, M5);
      M5Head(t[0]);
      assert m == M5(t[0]) + Map(t[1..], M5);
      assert m[0] == M5(t[0])[0];
      assert Plain(w[1..]);
      MapStarts(t[1..], w[1..]);
      StartsWithTail(t, w);
      if m[0] == w[0] {
        assert M5(t[0]) == [t[0]];
        assert m[1..] == Map(t[1..], M5);
      }
      StartsWithTail(m, w);
    } else if |w| > 0 {
      Mismatch(Map(t, M5), w, 0);
      Mismatch(t, w, 0);
    }
  }

  lemma {:induction false} Stage6Plain(w: string, t: string)
    requires Plain(w)
    ensures Stage6(w + t) == w + Stage6(t)
  {
    if |w| > 0 {
      var s := w + t;
      assert s[0] == w[0] && s[1..] == w[1..] + t;
      Mismatch(s, EntityTag, 0);
      M5Head(w[0]);
      assert Stage6(s) == [w[0]] + Stage6(w[1..] + t);
      assert Plain(w[1..]);
      Stage6Plain(w[1..], t);
      assert w == [w[0]] + w[1..];
    } else {
      assert w + t == t;
    }
  }

  lemma Stage6Head(t: string)
    requires |t| > 0
    ensures |Stage6(t)| > 0
    ensures Stage6(t)[0] == '<' || Stage6(t)[0] == '&' || (!Special(t[0]) && Stage6(t) == [t[0]] + Stage6(t[1..]))
  {
    M5Head(t[0]);
    if !StartsWith(t, EntityTag) {
      assert Stage6(t) == M5(t[0]) + Stage6(t[1..]);
    }
  }

  lemma {:induction false} Stage6Starts(t: string, w: string)
    requires Plain(w)
    ensures StartsWith(Stage6(t), w) <==> StartsWith(t, w)
  {
    if |w| > 0 && |t| > 0 {
      var m := Stage6(t);
      Stage6Head(t);
      assert Plain(w[1..]);
      Stage6Starts(t[1..], w[1..]);
      StartsWithTail(t, w);
      StartsWithTail(m, w);
      assert !Special(w[0]);
    } else if |w| > 0 {
      Mismatch(t, w, 0);
    }
  }

  /** The replacement skips over text without the pattern's first character. */
  lemma {:induction false} ReplaceSkip(a: string, b: string, pat: string, rep: string)
    requires |pat| > 0 && pat[0] !in a
    ensures ReplaceAll(a + b, pat, rep) == a + ReplaceAll(b, pat, rep)
  {
    if |a| > 0 {
      var s := a + b;
      assert s[0] == a[0] && s[1..] == a[1..] + b;
      Mismatch(s, pat, 0);
      ReplaceSkip(a[1..], b, pat, rep);
      assert a == [a[0]] + a[1..];
    } else {
      assert a + b == b;
    }
  }

  /** An escape `e` that does not start the pattern is copied. */
  lemma ReplaceEscape(e: string, b: string, pat: string, rep: string)
    requires |pat| > 0 && |e| > 0 && pat[0] !in e[1..]
    requires !StartsWith(e + b, pat)
    ensures ReplaceAll(e + b, pat, rep) == e + ReplaceAll(b, pat, rep)
  {
    var s := e + b;
    assert s[0] == e[0] && s[1..] == e[1..] + b;
    assert ReplaceAll(s, pat, rep) == [e[0]] + ReplaceAll(e[1..] + b, pat, rep);
    ReplaceSkip(e[1..], b, pat, rep);
    calc {
      [e[0]] + (e[1..] + ReplaceAll(b, pat, rep));
      ([e[0]] + e[1..]) + ReplaceAll(b, pat, rep);
      { assert [e[0]] + e[1..] == e; }
      e + ReplaceAll(b, pat, rep);
    }
  }

  lemma ReplaceHit(b: string, pat: string, rep: string)
    requires |pat| > 0
    ensures ReplaceAll(pat + b, pat, rep) == rep + ReplaceAll(b, pat, rep)
  {
    StartsWithCat(pat, b);
  }

  /** `M5(c) + b` starts with `&lt;` and a plain word `w` only when `c` is
      `<` and `b` starts with `w`. */
  lemma NotLtWord(c: char, b: string, w: string)
    requires Plain(w)
    ensures StartsWith(M5(c) + b, "&lt;" + w) ==> c == '<' && StartsWith(b, w)
  {
    var s := M5(c) + b;
    var p := "&lt;" + w;
    M5Head(c);
    if c != '<' {
      if M5(c) == [c] {
        Mismatch(s, p, 0);
      } else {
        Mismatch(s, p, 1);
      }
    } else {
      if StartsWith(s, p) {
        assert s == "&lt;" + b;
        assert b[..|w|] == s[..|p|][4..];
      }
    }
  }

  lemma Plains()
    ensures Plain("Entity:") && Plain("Morphism:")
    ensures EntityTag == "<" + "Entity:" && MorphismTag == "<" + "Morphism:"
  {
  }

  /** `s` starts with the tag `"<" + w` when its tail starts with `w`. */
  lemma TagFromTail(s: string, w: string)
    requires |s| > 0 && s[0] == '<'
    ensures StartsWith(s[1..], w) ==> StartsWith(s, "<" + w)
  {
    if StartsWith(s[1..], w) {
      assert s[..|w| + 1] == [s[0]] + s[1..][..|w|];
    }
  }

  lemma Step6Tag(s: string)
    requires StartsWith(s, EntityTag)
    ensures Map(s, M5) == "&lt;Entity:" + Map(s[|EntityTag|..], M5)
  {
    var rest := s[|EntityTag|..];
    Plains();
    assert s == "<" + ("Entity:" + rest);
    MapAppend("<", "Entity:" + rest, M5);
    MapAppend("Entity:", rest, M5);
    MapPlain("Entity:");
  }

  /** The escape of one character followed by `b`, where no `&lt;` that
      begins it is followed by the word `w`, is copied by the restoration of
      `"<" + w`. */
  lemma RestorePiece(c: char, b: string, w: string, pat: string, rep: string)
    requires Plain(w) && pat == "&lt;" + w
    requires c == '<' ==> !StartsWith(b, w)
    ensures ReplaceAll(M5(c) + b, pat, rep) == M5(c) + ReplaceAll(b, pat, rep)
  {
    NotLtWord(c, b, w);
    M5Head(c);
    ReplaceEscape(M5(c), b, pat, rep);
  }

  lemma Step6Other(s: string, w: string, pat: string, rep: string)
    requires |s| > 0 && Plain(w) && pat == "&lt;" + w && !StartsWith(s, "<" + w)
    ensures ReplaceAll(Map(s, M5), pat, rep) == M5(s[0]) + ReplaceAll(Map(s[1..], M5), pat, rep)
  {
    var b := Map(s[1..], M5);
    assert Map(s, M5) == M5(s[0]) + b;
    MapStarts(s[1..], w);
    if s[0] == '<' {
      TagFromTail(s, w);
    }
    RestorePiece(s[0], b, w, pat, rep);
  }

  /** Restoring `<Entity:` after the first five steps. */
  lemma {:induction false} Step6(s: string)
    ensures ReplaceAll(Map(s, M5), "&lt;Entity:", "<Entity:") == Stage6(s)
    decreases |s|
  {
    if |s| > 0 {
      if StartsWith(s, EntityTag) {
        var rest := s[|EntityTag|..];
        Step6Tag(s);
        ReplaceHit(Map(rest, M5), "&lt;Entity:", "<Entity:");
        Step6(rest);
      } else {
        Plains();
        Step6Other(s, "Entity:", "&lt;Entity:", "<Entity:");
        Step6(s[1..]);
      }
    }
  }

  lemma Step7Tag(s: string, w: string)
    requires Plain(w) && StartsWith(s, "<" + w) && !StartsWith(s, EntityTag)
    ensures Stage6(s) == ("&lt;" + w) + Stage6(s[|w| + 1..])
  {
    var rest := s[|w| + 1..];
    assert s[..|w| + 1] == "<" + w;
    assert s == "<" + (w + rest);
    assert s[1..] == w + rest;
    assert Stage6(s) == M5('<') + Stage6(s[1..]);
    Stage6Plain(w, rest);
  }

  lemma Step7Other(s: string, w: string, pat: string, rep: string)
    requires |s| > 0 && !StartsWith(s, EntityTag)
    requires Plain(w) && pat == "&lt;" + w && !StartsWith(s, "<" + w)
    ensures ReplaceAll(Stage6(s), pat, rep) == M5(s[0]) + ReplaceAll(Stage6(s[1..]), pat, rep)
  {
    var b := Stage6(s[1..]);
    assert Stage6(s) == M5(s[0]) + b;
    Stage6Starts(s[1..], w);
    if s[0] == '<' {
      TagFromTail(s, w);
    }
    RestorePiece(s[0], b, w, pat, rep);
  }

  lemma Step7Hit(s: string, w: string, pat: string, rep: string)
    requires Plain(w) && StartsWith(s, "<" + w) && !StartsWith(s, EntityTag) && pat == "&lt;" + w
    ensures ReplaceAll(Stage6(s), pat, rep) == rep + ReplaceAll(Stage6(s[|w| + 1..]), pat, rep)
  {
    Step7Tag(s, w);
    ReplaceHit(Stage6(s[|w| + 1..]), pat, rep);
  }

  /** Restoring `<Morphism:`. */
  lemma {:induction false} Step7(s: string)
    ensures ReplaceAll(Stage6(s), "&lt;Morphism:", "<Morphism:") == Stage7(s)
    decreases |s|
  {
    if |s| > 0 {
      if StartsWith(s, EntityTag) {
        var rest := s[|EntityTag|..];
        ReplaceSkip(EntityTag, Stage6(rest), "&lt;Morphism:", "<Morphism:");
        Step7(rest);
      } else if StartsWith(s, MorphismTag) {
        var rest := s[|MorphismTag|..];
        Plains();
        Step7Hit(s, "Morphism:", "&lt;Morphism:", "<Morphism:");
        Step7(rest);
      } else {
        Plains();
        Step7Other(s, "Morphism:", "&lt;Morphism:", "<Morphism:");
        Step7(s[1..]);
      }
    }
  }

  /** The escape of one character followed by `b` under the restoration of
      `>`. */
  lemma Step8Piece(c: char, b: string)
    ensures ReplaceAll(M5(c) + b, "&gt;", ">") == EscapeChar(c) + ReplaceAll(b, "&gt;", ">")
  {
    if c == '>' {
      ReplaceHit(b, "&gt;", ">");
    } else {
      var e := M5(c);
      M5Head(c);
      assert e == EscapeChar(c);
      if |e| > 1 {
        Mismatch(e + b, "&gt;", 1);
      } else {
        Mismatch(e + b, "&gt;", 0);
      }
      ReplaceEscape(e, b, "&gt;", ">");
    }
  }

  lemma Step8Other(s: string)
    requires |s| > 0 && !StartsWith(s, EntityTag) && !StartsWith(s, MorphismTag)
    ensures ReplaceAll(Stage7(s), "&gt;", ">") == EscapeChar(s[0]) + ReplaceAll(Stage7(s[1..]), "&gt;", ">")
  {
    assert Stage7(s) == M5(s[0]) + Stage7(s[1..]);
    Step8Piece(s[0], Stage7(s[1..]));
  }

  /** Restoring `>`. */
  lemma {:induction false} Step8(s: string)
    ensures ReplaceAll(Stage7(s), "&gt;", ">") == Reference(s)
    decreases |s|
  {
    if |s| > 0 {
      if StartsWith(s, EntityTag) {
        var rest := s[|EntityTag|..];
        ReplaceSkip(EntityTag, Stage7(rest), "&gt;", ">");
        Step8(rest);
      } else if StartsWith(s, MorphismTag) {
        var rest := s[|MorphismTag|..];
        ReplaceSkip(MorphismTag, Stage7(rest), "&gt;", ">");
        Step8(rest);
      } else {
        Step8Other(s);
        Step8(s[1..]);
      }
    }
  }

  /** The chain of replacements computes `Reference`. */
  lemma EscapeIsReference(s: string)
    ensures EscapeSpecialChars(s) == Reference(s)
  {
    Steps1To5(s);
    Step6(s);
    Step7(s);
    Step8(s);
  }

  // ---------------------------------------------------------------------
  // What the escaped text looks like.

  /** Every `<` of `t` begins one of the two tags. */
  predicate LtOnlyInTags(t: string) {
    forall i :: 0 <= i < |t| && t[i] == '<' ==> StartsWith(t[i..], EntityTag) || StartsWith(t[i..], MorphismTag)
  }

  lemma LtShift(a: string, b: string, i: nat)
    requires |a| <= i < |a + b|
    ensures (a + b)[i..] == b[i - |a|..]
  {
  }

  lemma LtPrepend(a: string, b: string)
    requires '<' !in a && LtOnlyInTags(b)
    ensures LtOnlyInTags(a + b)
  {
    forall i | 0 <= i < |a + b| && (a + b)[i] == '<'
      ensures StartsWith((a + b)[i..], EntityTag) || StartsWith((a + b)[i..], MorphismTag)
    {
      if i >= |a| {
        LtShift(a, b, i);
        assert b[i - |a|] == '<';
      }
    }
  }

  lemma TagPrepend(tag: string, b: string)
    requires tag == EntityTag || tag == MorphismTag
    requires LtOnlyInTags(b)
    ensures LtOnlyInTags(tag + b)
  {
    var t := tag + b;
    StartsWithCat(tag, b);
    assert '<' !in tag[1..];
    LtPrepend(tag[1..], b);
    assert t == [tag[0]] + (tag[1..] + b);
    forall i | 0 <= i < |t| && t[i] == '<'
      ensures StartsWith(t[i..], EntityTag) || StartsWith(t[i..], MorphismTag)
    {
      if i > 0 {
        assert t[i..] == (tag[1..] + b)[i - 1..];
      }
    }
  }

  /** How many input characters the first step of `Reference` consumes. */
  function PieceLen(s: string): (n: nat)
    requires |s| > 0
    ensures 1 <= n <= |s|
  {
    if StartsWith(s, EntityTag) then |EntityTag|
    else if StartsWith(s, MorphismTag) then |MorphismTag|
    else 1
  }

  /** What the first step of `Reference` emits. */
  function Piece(s: string): string
    requires |s| > 0
  {
    if PieceLen(s) > 1 then s[..PieceLen(s)] else EscapeChar(s[0])
  }

  lemma ReferencePiece(s: string)
    requires |s| > 0
    ensures Reference(s) == Piece(s) + Reference(s[PieceLen(s)..])
  {
    if StartsWith(s, EntityTag) {
      assert Piece(s) == EntityTag;
    } else if StartsWith(s, MorphismTag) {
      assert Piece(s) == MorphismTag;
    } else {
      assert PieceLen(s) == 1;
    }
  }

  lemma EscapeCharShape(c: char)
    ensures '"' !in EscapeChar(c) && '\'' !in EscapeChar(c) && '<' !in EscapeChar(c)
  {
  }

  lemma TagShape()
    ensures '"' !in EntityTag && '\'' !in EntityTag && '<' !in EntityTag[1..]
    ensures '"' !in MorphismTag && '\'' !in MorphismTag && '<' !in MorphismTag[1..]
  {
  }

  /** A piece holds no quote, and a `<` only as the first character of a
      whole tag. */
  lemma PieceShape(s: string)
    requires |s| > 0
    ensures '"' !in Piece(s) && '\'' !in Piece(s)
    ensures '<' !in Piece(s)[1..]
    ensures |Piece(s)| > 0 && (Piece(s)[0] == '<' ==> Piece(s) == EntityTag || Piece(s) == MorphismTag)
  {
    if StartsWith(s, EntityTag) {
      assert Piece(s) == EntityTag;
      TagShape();
    } else if StartsWith(s, MorphismTag) {
      assert Piece(s) == MorphismTag;
      TagShape();
    } else {
      assert Piece(s) == EscapeChar(s[0]);
      EscapeCharShape(s[0]);
    }
  }

  /** The escaped text holds no quote of either kind: whatever the input,
      it can be placed inside a quoted attribute value. */
  lemma {:induction false} ReferenceNoQuotes(s: string)
    ensures '"' !in Reference(s) && '\'' !in Reference(s)
    decreases |s|
  {
    if |s| > 0 {
      ReferencePiece(s);
      PieceShape(s);
      ReferenceNoQuotes(s[PieceLen(s)..]);
    }
  }

  /** A `<` survives only where a tag begins. */
  lemma {:induction false} ReferenceTagsOnly(s: string)
    ensures LtOnlyInTags(Reference(s))
    decreases |s|
  {
    if |s| > 0 {
      var p := Piece(s);
      var r := Reference(s[PieceLen(s)..]);
      ReferencePiece(s);
      PieceShape(s);
      ReferenceTagsOnly(s[PieceLen(s)..]);
      if p[0] == '<' {
        TagPrepend(p, r);
      } else {
        LtPrepend(p, r);
      }
    }
  }

  /** The escaper's promises, about the chain itself. */
  lemma EscapeShape(s: string)
    ensures '"' !in EscapeSpecialChars(s) && '\'' !in EscapeSpecialChars(s)
    ensures LtOnlyInTags(EscapeSpecialChars(s))
  {
    EscapeIsReference(s);
    ReferenceNoQuotes(s);
    ReferenceTagsOnly(s);
  }

  // ---------------------------------------------------------------------
  // Nothing is lost: the escape can be undone.

  /** Decoding of the four entity references the escaper emits. */
  function Unescape(t: string): string
    decreases |t|
  {
    if |t| == 0 then []
    else if StartsWith(t, "&amp;") then "&" + Unescape(t[5..])
    else if StartsWith(t, "&lt;") then "<" + Unescape(t[4..])
    else if StartsWith(t, "&quot;") then "\"" + Unescape(t[6..])
    else if StartsWith(t, "&apos;") then "'" + Unescape(t[6..])
    else [t[0]] + Unescape(t[1..])
  }

  /** Text not starting with `&` is copied one character. */
  lemma UnescapeOther(t: string)
    requires |t| > 0 && t[0] != '&'
    ensures Unescape(t) == [t[0]] + Unescape(t[1..])
  {
    Mismatch(t, "&amp;", 0);
    Mismatch(t, "&lt;", 0);
    Mismatch(t, "&quot;", 0);
    Mismatch(t, "&apos;", 0);
  }

  lemma {:induction false} UnescapeSkip(a: string, b: string)
    requires '&' !in a
    ensures Unescape(a + b) == a + Unescape(b)
    decreases |a|
  {
    if |a| > 0 {
      assert (a + b)[1..] == a[1..] + b;
      UnescapeOther(a + b);
      UnescapeSkip(a[1..], b);
      assert a + Unescape(b) == [a[0]] + (a[1..] + Unescape(b));
    } else {
      assert a + b == b;
    }
  }

  lemma UnescapeHit(e: string, b: string, c: char)
    requires |e| > 0 && StartsWith(e + b, e)
    requires Unescape(e + b) == [c] + Unescape((e + b)[|e|..])
    ensures Unescape(e + b) == [c] + Unescape(b)
  {
    StartsWithCat(e, b);
  }

  lemma UnescapeChar(c: char, b: string)
    ensures Unescape(EscapeChar(c) + b) == [c] + Unescape(b)
  {
    var e := EscapeChar(c);
    StartsWithCat(e, b);
    if c == '&' {
      assert Unescape(e + b) == "&" + Unescape((e + b)[5..]);
    } else if c == '<' {
      Mismatch(e + b, "&amp;", 1);
      assert Unescape(e + b) == "<" + Unescape((e + b)[4..]);
    } else if c == '"' {
      Mismatch(e + b, "&amp;", 1);
      Mismatch(e + b, "&lt;", 1);
      assert Unescape(e + b) == "\"" + Unescape((e + b)[6..]);
    } else if c == '\'' {
      Mismatch(e + b, "&amp;", 2);
      Mismatch(e + b, "&lt;", 1);
      Mismatch(e + b, "&quot;", 1);
      assert Unescape(e + b) == "'" + Unescape((e + b)[6..]);
    } else {
      UnescapeSkip(e, b);
    }
  }

  lemma UnescapeTag(tag: string, rest: string)
    requires '&' !in tag && Unescape(Reference(rest)) == rest
    ensures Unescape(tag + Reference(rest)) == tag + rest
  {
    UnescapeSkip(tag, Reference(rest));
  }

  /** Decoding the escaped text gives the input back. */
  lemma {:induction false} UnescapeReference(s: string)
    ensures Unescape(Reference(s)) == s
    decreases |s|
  {
    if |s| > 0 {
      if StartsWith(s, EntityTag) {
        var rest := s[|EntityTag|..];
        assert Reference(s) == EntityTag + Reference(rest);
        UnescapeReference(rest);
        UnescapeTag(EntityTag, rest);
        assert s == EntityTag + rest;
      } else if StartsWith(s, MorphismTag) {
        var rest := s[|MorphismTag|..];
        assert Reference(s) == MorphismTag + Reference(rest);
        UnescapeReference(rest);
        UnescapeTag(MorphismTag, rest);
        assert s == MorphismTag + rest;
      } else {
        assert Reference(s) == EscapeChar(s[0]) + Reference(s[1..]);
        UnescapeReference(s[1..]);
        UnescapeChar(s[0], Reference(s[1..]));
        assert s == [s[0]] + s[1..];
      }
    }
  }

  /** Hence the escaper is one-to-one. */
  lemma EscapeInjective(a: string, b: string)
    requires EscapeSpecialChars(a) == EscapeSpecialChars(b)
    ensures a == b
  {
    EscapeIsReference(a);
    EscapeIsReference(b);
    UnescapeReference(a);
    UnescapeReference(b);
  }
}
