/** Hand-written matchers for the fixed regular expressions the two parsers
    use.  Each matcher returns what the regex engine's leftmost match would
    capture; the comments give the pattern it stands for. */
module Patterns {
  import opened Strings

  datatype Match = Match(pos: nat, group: string)

  predicate IsBoxChar(c: char) {
    c == '│' || c == '├' || c == '└'
  }

  /** `TAG\s*([^C]+)C` (or `TAG([^C]+)C` when `skipWs` is false) tried at
      position `i` of `s`.  The `[^C]+` group ends at the first `C` after the
      tag; the lazy-free `\s*` takes all leading whitespace but must leave one
      character for the group. */
  function GroupAt(s: string, i: nat, tag: string, skipWs: bool, d: Dialect, close: char): (r: Option<string>)
    ensures r.Some? ==> StartsWithAt(s, i, tag) && |r.value| >= 1 && close !in r.value
    ensures r.Some? ==> exists k: nat :: i + |tag| + |r.value| <= k < |s| && s[k] == close && r.value == s[k - |r.value|..k]
  {
    if !StartsWithAt(s, i, tag) then None
    else
      var j := i + |tag|;
      match IndexOf(s, close, j)
      case None => None
      case Some(k) =>
        if k == j then None
        else
          var w0 := if skipWs then Span(s[j..k], c => IsSpace(c, d)) else 0;
          var w := if w0 == k - j then k - j - 1 else w0;
          assert forall x :: j + w <= x < k ==> s[x] != close;
          Some(s[j + w..k])
  }

  /** Nothing matches from the end of the text on. */
  lemma GroupPast(s: string, tag: string, skipWs: bool, d: Dialect, close: char)
    ensures forall j :: |s| <= j ==> GroupAt(s, j, tag, skipWs, d, close).None?
  {
    forall j | |s| <= j ensures GroupAt(s, j, tag, skipWs, d, close).None? {
      if StartsWithAt(s, j, tag) {
        assert j + |tag| == |s|;
      }
    }
  }

  /** Leftmost position at or after `from` where `GroupAt` matches. */
  function FirstGroup(s: string, tag: string, skipWs: bool, d: Dialect, close: char, from: nat): (r: Option<Match>)
    decreases |s| - from
    ensures r.Some? ==> from <= r.value.pos && GroupAt(s, r.value.pos, tag, skipWs, d, close) == Some(r.value.group)
    ensures r.Some? ==> forall j :: from <= j < r.value.pos ==> GroupAt(s, j, tag, skipWs, d, close).None?
    ensures r.None? ==> forall j :: from <= j ==> GroupAt(s, j, tag, skipWs, d, close).None?
  {
    if from >= |s| then GroupPast(s, tag, skipWs, d, close); None
    else
      match GroupAt(s, from, tag, skipWs, d, close)
      case Some(g) => Some(Match(from, g))
      case None => FirstGroup(s, tag, skipWs, d, close, from + 1)
  }

  /** `TAG\s*"([^"]*)"` (`allowEmpty`) or `TAG\s*"([^"]+)"` tried at `i`. */
  function QuotedAt(s: string, i: nat, tag: string, d: Dialect, allowEmpty: bool): (r: Option<string>)
    ensures r.Some? ==> StartsWithAt(s, i, tag) && '"' !in r.value && '"' in s
    ensures r.Some? && !allowEmpty ==> |r.value| >= 1
  {
    if !StartsWithAt(s, i, tag) then None
    else
      var o := i + |tag| + Span(s[i + |tag|..], c => IsSpace(c, d));
      if o >= |s| || s[o] != '"' then None
      else
        match IndexOf(s, '"', o + 1)
        case None => None
        case Some(k) =>
          if k == o + 1 && !allowEmpty then None
          else
            assert forall x :: o + 1 <= x < k ==> s[x] != '"';
            Some(s[o + 1..k])
  }

  lemma QuotedPast(s: string, tag: string, d: Dialect, allowEmpty: bool)
    ensures forall j :: |s| <= j ==> QuotedAt(s, j, tag, d, allowEmpty).None?
  {
    forall j | |s| <= j ensures QuotedAt(s, j, tag, d, allowEmpty).None? {
      if StartsWithAt(s, j, tag) {
        assert j + |tag| == |s|;
      }
    }
  }

  /** Leftmost position at or after `from` where `QuotedAt` matches. */
  function FirstQuoted(s: string, tag: string, d: Dialect, allowEmpty: bool, from: nat): (r: Option<Match>)
    decreases |s| - from
    ensures r.Some? ==> from <= r.value.pos && QuotedAt(s, r.value.pos, tag, d, allowEmpty) == Some(r.value.group)
    ensures r.Some? ==> forall j :: from <= j < r.value.pos ==> QuotedAt(s, j, tag, d, allowEmpty).None?
    ensures r.None? ==> forall j :: from <= j ==> QuotedAt(s, j, tag, d, allowEmpty).None?
  {
    if from >= |s| then QuotedPast(s, tag, d, allowEmpty); None
    else
      match QuotedAt(s, from, tag, d, allowEmpty)
      case Some(g) => Some(Match(from, g))
      case None => FirstQuoted(s, tag, d, allowEmpty, from + 1)
  }

  /** A text without a double quote holds no quoted capture. */
  lemma NoQuoteNoCapture(s: string, tag: string, d: Dialect, allowEmpty: bool)
    requires '"' !in s
    ensures FirstQuoted(s, tag, d, allowEmpty, 0).None?
  {
  }

  // ---------------------------------------------------------------------
  // parse_entities.py

  /** Whether `w` matches the optional tree prefix `(?:[│├└](?:──)?\s*)?`. */
  predicate EntityPrefix(w: string) {
    || w == []
    || (IsBoxChar(w[0]) &&
        (AllSpace(w[1..], Python) || (|w| >= 3 && w[1] == '─' && w[2] == '─' && AllSpace(w[3..], Python))))
  }

  /** The second alternative `^[\s│]*(?:├──|└──)\s*<([^>]+)>`, anchored at the
      start of the line. */
  function TreeHeaderGroup(line: string): (r: Option<string>)
    ensures r.Some? ==> |r.value| >= 1 && '>' !in r.value
  {
    var a := Span(line, c => IsSpace(c, Python) || c == '│');
    if !(StartsWithAt(line, a, "├──") || StartsWithAt(line, a, "└──")) then None
    else
      var b := a + 3 + Span(line[a + 3..], c => IsSpace(c, Python));
      GroupAt(line, b, "<", false, Python, '>')
  }

  /** The capture that `re.search` of the entity-header pattern
      `(?:[│├└](?:──)?\s*)?<Entity:\s*([^>]+)>|^[\s│]*(?:├──|└──)\s*<([^>]+)>`
      yields, group 1 or group 2, or `None` when the line does not match. The
      leftmost match wins; at position 0 the first alternative is tried first. */
  function HeaderGroup(line: string): (r: Option<string>)
    ensures r.Some? ==> |r.value| >= 1 && '>' !in r.value
    ensures r.None? <==> FirstGroup(line, "<Entity:", true, Python, '>', 0).None? && TreeHeaderGroup(line).None?
  {
    var alt1 := FirstGroup(line, "<Entity:", true, Python, '>', 0);
    if alt1.Some? && EntityPrefix(line[..alt1.value.pos]) then Some(alt1.value.group)
    else if TreeHeaderGroup(line).Some? then TreeHeaderGroup(line)
    else if alt1.Some? then Some(alt1.value.group)
    else None
  }

  /** Characters of the leading run `^[\s│├└─]*` whose length is the depth. */
  predicate IsDepthChar(c: char) {
    IsSpace(c, Python) || c == '│' || c == '├' || c == '└' || c == '─'
  }

  /** Position just after `[│├└](?:──)?\s*` started by the box character at `p`. */
  function AfterBox(s: string, p: nat): (j: nat)
    requires p < |s| && IsBoxChar(s[p])
    ensures p < j <= |s|
    ensures j < |s| ==> !IsSpace(s[j], Python)
  {
    var q := if StartsWithAt(s, p + 1, "──") then p + 3 else p + 1;
    q + Span(s[q..], c => IsSpace(c, Python))
  }

  /** `re.search(r'[│├└](?:──)?\s*\[', line)`. */
  predicate ActionMarker(s: string) {
    exists p :: 0 <= p < |s| && IsBoxChar(s[p]) && AfterBox(s, p) < |s| && s[AfterBox(s, p)] == '['
  }

  /** First box character at or after `from`. */
  function FirstBox(s: string, from: nat): (r: Option<nat>)
    decreases |s| - from
    ensures r.Some? ==> from <= r.value < |s| && IsBoxChar(s[r.value])
    ensures r.Some? ==> forall j :: from <= j < r.value ==> !IsBoxChar(s[j])
    ensures r.None? ==> forall j :: from <= j < |s| ==> !IsBoxChar(s[j])
  {
    if from >= |s| then None
    else if IsBoxChar(s[from]) then Some(from)
    else FirstBox(s, from + 1)
  }

  /** `p` is the first box character of `s`. */
  predicate LeadingBox(s: string, p: nat) {
    p < |s| && IsBoxChar(s[p]) && forall i :: 0 <= i < p ==> !IsBoxChar(s[i])
  }

  /** What the action pattern captures at the box character `p`: after the
      connector and its spaces, either the text between a `[` and the first
      `]` after it, or, when no such bracket pair follows, the rest of the line. */
  predicate CapturedAt(s: string, p: nat, t: string)
    requires p < |s| && IsBoxChar(s[p])
  {
    var j := AfterBox(s, p);
    if j < |s| && s[j] == '[' && ']' in s[j + 1..] then
      j + 1 + |t| < |s| && s[j + 1..j + 1 + |t|] == t && s[j + 1 + |t|] == ']' && ']' !in t
    else t == s[j..]
  }

  /** `m.group(1) or m.group(2)` for
      `m = re.search(r'[│├└](?:──)?\s*\[(.*?)\]|[│├└](?:──)?\s*(.*?)$', line)`,
      as a non-empty string or `None` when Python's `if action:` is false.
      The second alternative matches at every box character, so the first box
      character of the line decides; there the bracketed text wins when a `]`
      follows, otherwise the rest of the line is taken. */
  function ActionText(s: string): (r: Option<string>)
    ensures r.Some? ==> |r.value| >= 1
    ensures r.Some? ==> IsInfix(r.value, s)
  {
    match FirstBox(s, 0)
    case None => None
    case Some(p) => ActionAt(s, p)
  }

  /** The action text when the box character at `p` decides. */
  function ActionAt(s: string, p: nat): (r: Option<string>)
    requires p < |s| && IsBoxChar(s[p])
    ensures r.Some? ==> |r.value| >= 1 && IsInfix(r.value, s)
  {
    var j := AfterBox(s, p);
    if j < |s| && s[j] == '[' && IndexOf(s, ']', j + 1).Some? then
      var k := IndexOf(s, ']', j + 1).value;
      if k == j + 1 then None
      else assert StartsWithAt(s, j + 1, s[j + 1..k]); Some(s[j + 1..k])
    else if j < |s| then assert StartsWithAt(s, j, s[j..]); Some(s[j..])
    else None
  }

  /** The action text is what the pattern captures at the first box
      character of the line, and it is absent exactly when the line has no
      box character or that capture is empty. */
  lemma ActionTextCaptured(s: string)
    ensures ActionText(s).Some? ==> exists p :: LeadingBox(s, p) && CapturedAt(s, p, ActionText(s).value)
    ensures ActionText(s).None? ==>
      (forall i :: 0 <= i < |s| ==> !IsBoxChar(s[i])) || exists p :: LeadingBox(s, p) && CapturedAt(s, p, [])
  {
    match FirstBox(s, 0)
    case None =>
    case Some(p) =>
      assert LeadingBox(s, p);
      ActionAtCaptured(s, p);
  }

  lemma ActionAtCaptured(s: string, p: nat)
    requires p < |s| && IsBoxChar(s[p])
    ensures ActionAt(s, p).Some? ==> CapturedAt(s, p, ActionAt(s, p).value)
    ensures ActionAt(s, p).None? ==> CapturedAt(s, p, [])
  {
    var j := AfterBox(s, p);
    if j < |s| && s[j] == '[' && IndexOf(s, ']', j + 1).Some? {
      BracketCaptured(s, p, IndexOf(s, ']', j + 1).value);
    } else {
      RestCaptured(s, p);
    }
  }

  lemma BracketCaptured(s: string, p: nat, k: nat)
    requires p < |s| && IsBoxChar(s[p])
    requires AfterBox(s, p) < |s| && s[AfterBox(s, p)] == '['
    requires IndexOf(s, ']', AfterBox(s, p) + 1) == Some(k)
    ensures CapturedAt(s, p, s[AfterBox(s, p) + 1..k])
  {
    var j := AfterBox(s, p);
    assert s[j + 1..][k - j - 1] == ']';
    assert ']' !in s[j + 1..k];
  }

  lemma RestCaptured(s: string, p: nat)
    requires p < |s| && IsBoxChar(s[p])
    requires !(AfterBox(s, p) < |s| && s[AfterBox(s, p)] == '[' && IndexOf(s, ']', AfterBox(s, p) + 1).Some?)
    ensures CapturedAt(s, p, s[AfterBox(s, p)..])
  {
    var j := AfterBox(s, p);
    if j < |s| && s[j] == '[' {
      assert ']' !in s[j + 1..];
    }
  }

  // ---------------------------------------------------------------------
  // entity_parser.js

  /** `line.match(/TAG\s*([^>]+)>/)[1]`, used with the tags `<Entity:` and
      `<Morphism:`. */
  function JsTagName(t: string, tag: string): (r: Option<string>)
    ensures r.Some? ==> |r.value| >= 1 && '>' !in r.value && Contains(t, tag)
  {
    match FirstGroup(t, tag, true, JavaScript, '>', 0)
    case None => None
    case Some(m) => ContainsAt(t, tag, m.pos); Some(m.group)
  }

  /** `line.match(/Description:\s*"([^"]+)"/)[1]`. */
  function JsDescription(t: string): (r: Option<string>)
    ensures r.Some? ==> |r.value| >= 1 && '"' !in r.value && '"' in t
  {
    match FirstQuoted(t, "Description:", JavaScript, false, 0)
    case None => None
    case Some(m) => Some(m.group)
  }

  /** `line.match(/\[([^\]]+)\]/)[1]`. */
  function JsAction(t: string): (r: Option<string>)
    ensures r.Some? ==> |r.value| >= 1 && ']' !in r.value
  {
    match FirstGroup(t, "[", false, JavaScript, ']', 0)
    case None => None
    case Some(m) => Some(m.group)
  }
}
