/** Character classes, trimming, searching, and line splitting/joining,
    as used by both parsers.  Strings are sequences of Unicode scalar values. */
module Strings {

  datatype Option<+T> = None | Some(value: T)

  /** The two whitespace notions in play: Python's `str.isspace` (also what
      `str.strip()` removes and what `\s` matches in a `str` pattern), and
      ECMAScript's WhiteSpace plus LineTerminator (what `trim()` removes and
      what `\s` matches). */
  datatype Dialect = Python | JavaScript

  predicate IsSpace(c: char, d: Dialect) {
    || c == ' ' || c == '\t' || c == '\n' || c == '\r'
    || c == '\U{000B}' || c == '\U{000C}' || c == '\U{00A0}' || c == '\U{1680}'
    || ('\U{2000}' <= c <= '\U{200A}')
    || c == '\U{2028}' || c == '\U{2029}' || c == '\U{202F}'
    || c == '\U{205F}' || c == '\U{3000}'
    || (d == Python && (('\U{001C}' <= c <= '\U{001F}') || c == '\U{0085}'))
    || (d == JavaScript && c == '\U{FEFF}')
  }

  /** Length of the longest prefix of `s` whose characters all satisfy `p`. */
  function Span(s: string, p: char -> bool): (n: nat)
    ensures n <= |s|
    ensures forall i :: 0 <= i < n ==> p(s[i])
    ensures n < |s| ==> !p(s[n])
  {
    if |s| == 0 || !p(s[0]) then 0 else 1 + Span(s[1..], p)
  }

  /** Length of the longest suffix of `s` whose characters all satisfy `p`. */
  function SpanBack(s: string, p: char -> bool): (n: nat)
    ensures n <= |s|
    ensures forall i :: |s| - n <= i < |s| ==> p(s[i])
    ensures n < |s| ==> !p(s[|s| - 1 - n])
  {
    if |s| == 0 || !p(s[|s| - 1]) then 0 else 1 + SpanBack(s[..|s| - 1], p)
  }

  predicate AllSpace(s: string, d: Dialect) {
    forall i :: 0 <= i < |s| ==> IsSpace(s[i], d)
  }

  /** `s.strip()` in Python, `s.trim()` in JavaScript: the longest slice of `s`
      that neither starts nor ends with whitespace. */
  function Strip(s: string, d: Dialect): (r: string)
    ensures IsInfix(r, s)
    ensures AllSpace(s, d) <==> r == []
    ensures |r| > 0 ==> !IsSpace(r[0], d) && !IsSpace(r[|r| - 1], d)
    ensures exists a: nat :: a + |r| <= |s| && AllSpace(s[..a], d) && s[a..a + |r|] == r && AllSpace(s[a + |r|..], d)
  {
    var a := Span(s, c => IsSpace(c, d));
    assert StartsWithAt(s, 0, []);
    if a == |s| then
      assert AllSpace(s[..|s|], d) && AllSpace(s[|s|..], d);
      []
    else
      var b := SpanBack(s, c => IsSpace(c, d));
      assert !IsSpace(s[a], d) && !IsSpace(s[|s| - 1 - b], d);
      assert a <= |s| - 1 - b;
      assert StartsWithAt(s, a, s[a..|s| - b]);
      assert AllSpace(s[..a], d) && AllSpace(s[|s| - b..], d);
      assert s[a..a + |s[a..|s| - b]|] == s[a..|s| - b];
      s[a..|s| - b]
  }

  /** `s.strip(c)` in Python: remove every leading and trailing `c`. */
  function StripChar(s: string, c: char): (r: string)
    ensures IsInfix(r, s)
    ensures |r| > 0 ==> r[0] != c && r[|r| - 1] != c
    ensures exists a: nat :: a + |r| <= |s| && AllChar(s[..a], c) && s[a..a + |r|] == r && AllChar(s[a + |r|..], c)
  {
    var a := Span(s, x => x == c);
    assert StartsWithAt(s, 0, []);
    if a == |s| then
      assert AllChar(s[..|s|], c) && AllChar(s[|s|..], c);
      []
    else
      var b := SpanBack(s, x => x == c);
      assert s[a] != c && s[|s| - 1 - b] != c;
      assert StartsWithAt(s, a, s[a..|s| - b]);
      assert AllChar(s[..a], c) && AllChar(s[|s| - b..], c);
      assert s[a..a + |s[a..|s| - b]|] == s[a..|s| - b];
      s[a..|s| - b]
  }

  /** Every character of `s` is `c`. */
  predicate AllChar(s: string, c: char) {
    forall i :: 0 <= i < |s| ==> s[i] == c
  }

  lemma {:induction false} StripIdempotent(s: string, d: Dialect)
    ensures Strip(Strip(s, d), d) == Strip(s, d)
  {
    var r := Strip(s, d);
    if |r| > 0 {
      assert Span(r, c => IsSpace(c, d)) == 0;
      assert SpanBack(r, c => IsSpace(c, d)) == 0;
    }
  }

  /** A string that neither starts nor ends with whitespace is its own strip. */
  lemma StripUnpadded(s: string, d: Dialect)
    requires |s| > 0 && !IsSpace(s[0], d) && !IsSpace(s[|s| - 1], d)
    ensures Strip(s, d) == s
  {
    assert Span(s, c => IsSpace(c, d)) == 0;
    assert SpanBack(s, c => IsSpace(c, d)) == 0;
    assert s[0..|s|] == s;
  }

  predicate StartsWithAt(s: string, i: nat, pat: string) {
    i + |pat| <= |s| && s[i..i + |pat|] == pat
  }

  predicate StartsWith(s: string, pat: string) {
    StartsWithAt(s, 0, pat)
  }

  /** `r` occurs in `s` as a contiguous slice. */
  ghost predicate IsInfix(r: string, s: string) {
    exists a: nat :: StartsWithAt(s, a, r)
  }

  /** Index of the first occurrence of `pat` in `s` at or after `from`. */
  function Find(s: string, pat: string, from: nat): (r: Option<nat>)
    decreases |s| - from
    ensures r.Some? ==> from <= r.value && StartsWithAt(s, r.value, pat)
    ensures r.Some? ==> forall j :: from <= j < r.value ==> !StartsWithAt(s, j, pat)
    ensures r.None? ==> forall j :: from <= j ==> !StartsWithAt(s, j, pat)
  {
    if from + |pat| > |s| then None
    else if StartsWithAt(s, from, pat) then Some(from)
    else Find(s, pat, from + 1)
  }

  /** Python's `pat in s` and JavaScript's `s.includes(pat)`. */
  predicate Contains(s: string, pat: string) {
    Find(s, pat, 0).Some?
  }

  lemma ContainsAt(s: string, pat: string, i: nat)
    requires StartsWithAt(s, i, pat)
    ensures Contains(s, pat)
  {
  }

  /** Index of the first `c` in `s` at or after `from`. */
  function IndexOf(s: string, c: char, from: nat): (r: Option<nat>)
    decreases |s| - from
    ensures r.Some? ==> from <= r.value < |s| && s[r.value] == c
    ensures r.Some? ==> forall j :: from <= j < r.value ==> s[j] != c
    ensures r.None? ==> forall j :: from <= j < |s| ==> s[j] != c
  {
    if from >= |s| then None
    else if s[from] == c then Some(from)
    else IndexOf(s, c, from + 1)
  }

  /** The text after the first occurrence of `pat`: Python's `s.split(pat, 1)[1]`. */
  function After(s: string, pat: string): (r: string)
    requires Contains(s, pat)
    ensures exists i: nat :: StartsWithAt(s, i, pat) && r == s[i + |pat|..]
  {
    s[Find(s, pat, 0).value + |pat|..]
  }

  /** `s.split('\n')`, identical in Python and JavaScript. */
  function Split(s: string): (r: seq<string>)
    ensures |r| >= 1
    ensures forall k :: 0 <= k < |r| ==> '\n' !in r[k]
  {
    if |s| == 0 then [""]
    else
      var rest := Split(s[1..]);
      if s[0] == '\n' then [""] + rest
      else [[s[0]] + rest[0]] + rest[1..]
  }

  /** `'\n'.join(ls)` in Python, `ls.join('\n')` in JavaScript. */
  function Join(ls: seq<string>): string {
    if |ls| == 0 then ""
    else if |ls| == 1 then ls[0]
    else ls[0] + "\n" + Join(ls[1..])
  }

  predicate NoNewline(ls: seq<string>) {
    forall k :: 0 <= k < |ls| ==> '\n' !in ls[k]
  }

  lemma {:induction false} SplitCons(c: char, w: string, rest: seq<string>)
    requires c != '\n' && '\n' !in w
    requires Split(w) == [w]
    ensures Split([c] + w) == [[c] + w]
  {
    assert ([c] + w)[1..] == w;
  }

  lemma {:induction false} SplitNoNewline(w: string)
    requires '\n' !in w
    ensures Split(w) == [w]
  {
    if |w| > 0 {
      assert w == [w[0]] + w[1..];
      SplitNoNewline(w[1..]);
      SplitCons(w[0], w[1..], []);
    }
  }

  lemma {:induction false} SplitPrefix(w: string, t: string)
    requires '\n' !in w
    ensures Split(w + "\n" + t) == [w] + Split(t)
  {
    if |w| == 0 {
      assert w + "\n" + t == "\n" + t;
      assert ("\n" + t)[1..] == t;
    } else {
      var s := w + "\n" + t;
      assert s[0] == w[0];
      assert s[1..] == w[1..] + "\n" + t;
      SplitPrefix(w[1..], t);
      assert [w[0]] + w[1..] == w;
    }
  }

  /** Splitting undoes joining lines that hold no line break. */
  lemma {:induction false} SplitJoin(ls: seq<string>)
    requires |ls| >= 1 && NoNewline(ls)
    ensures Split(Join(ls)) == ls
  {
    if |ls| == 1 {
      SplitNoNewline(ls[0]);
    } else {
      SplitJoin(ls[1..]);
      SplitPrefix(ls[0], Join(ls[1..]));
      assert [ls[0]] + ls[1..] == ls;
    }
  }

  /** Each list of lines joined, as a block of text. */
  function JoinAll(bs: seq<seq<string>>): (r: seq<string>)
    ensures |r| == |bs| && forall k :: 0 <= k < |bs| ==> r[k] == Join(bs[k])
  {
    seq(|bs|, k requires 0 <= k < |bs| => Join(bs[k]))
  }

  lemma JoinAllSnoc(bs: seq<seq<string>>, b: seq<string>)
    ensures JoinAll(bs + [b]) == JoinAll(bs) + [Join(b)]
  {
  }

  /** The concatenation of the blocks. */
  function Flatten(bs: seq<seq<string>>): seq<string> {
    if |bs| == 0 then [] else Flatten(bs[..|bs| - 1]) + bs[|bs| - 1]
  }

  lemma {:induction false} SplitChars(s: string, c: char)
    requires c !in s
    ensures forall k :: 0 <= k < |Split(s)| ==> c !in Split(s)[k]
    decreases |s|
  {
    if |s| > 0 {
      SplitChars(s[1..], c);
    }
  }

  lemma InfixChars(r: string, s: string, c: char)
    requires IsInfix(r, s) && c !in s
    ensures c !in r
  {
    var a: nat :| StartsWithAt(s, a, r);
    forall i | 0 <= i < |r| ensures r[i] != c {
      assert r[i] == s[a + i];
    }
  }
}
