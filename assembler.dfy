/** `EntityParser.parse_entity` of parse_entities.py: turn one block into an
    `Entity`, or `None` when its first line is not an entity header. */
module Assembler {
  import opened Strings
  import opened Patterns
  import opened Model

  /** The loop's variables.  Python's `morphisms` list is `closed` followed by
      `copies` entries that are the very object `current` (a morphism header
      whose name does not match appends the open morphism but keeps it open,
      so later actions show up in every such entry). */
  datatype AsmState = AsmState(
    description: string,
    closed: seq<Morphism>,
    current: Option<Morphism>,
    copies: nat,
    inDescription: bool)

  const Init := AsmState("", [], None, 0, false)

  function Repeat(m: Morphism, n: nat): (r: seq<Morphism>)
    ensures |r| == n && forall k :: 0 <= k < n ==> r[k] == m
  {
    seq(n, _ => m)
  }

  /** The `morphisms` the entity would get if the block ended here: the list
      so far plus the final flush of the open morphism. */
  function Morphisms(st: AsmState): seq<Morphism> {
    if st.current.Some? then st.closed + Repeat(st.current.value, st.copies + 1) else st.closed
  }

  /** The description a `Description:` line sets: the quoted capture of
      `Description:\s*"([^"]*)"` when there is one, otherwise the text after
      the label, stripped of whitespace and then of double quotes. */
  function DescriptionValue(line: string): string
    requires Contains(line, "Description:")
  {
    match FirstQuoted(line, "Description:", Python, true, 0)
    case Some(m) => m.group
    case None => StripChar(Strip(After(line, "Description:"), Python), '"')
  }

  /** A continuation line while in description mode. */
  predicate IsContinuation(st: AsmState, line: string) {
    st.inDescription && StartsWith(Strip(line, Python), "\"")
  }

  /** What the loop's tests read off one line:
      `description` is set when `'Description:' in line`, to the value such a
      line assigns; `quoted` is set when the stripped line starts with `"`,
      to the text a continuation appends; `header` is set when
      `'<Morphism:' in line`, to the name `<Morphism:\s*([^>]+)>` captures, if
      any; `action` is set when the line has an action marker and a
      non-empty action text, to that text stripped. */
  datatype LineFacts = LineFacts(
    description: Option<string>,
    quoted: Option<string>,
    header: Option<Option<string>>,
    action: Option<string>)

  function Classify(line: string): (r: LineFacts)
    ensures r.description.Some? <==> Contains(line, "Description:")
    ensures r.quoted.Some? <==> StartsWith(Strip(line, Python), "\"")
    ensures r.header.Some? <==> Contains(line, "<Morphism:")
    ensures r.header.Some? && r.header.value.Some? ==> |r.header.value.value| >= 1 && '>' !in r.header.value.value
    ensures r.action.Some? ==> Strip(r.action.value, Python) == r.action.value
  {
    LineFacts(
      if Contains(line, "Description:") then Some(DescriptionValue(line)) else None,
      if StartsWith(Strip(line, Python), "\"") then Some(StripChar(Strip(line, Python), '"')) else None,
      if !Contains(line, "<Morphism:") then None
      else match FirstGroup(line, "<Morphism:", true, Python, '>', 0)
        case Some(m) => assert GroupAt(line, m.pos, "<Morphism:", true, Python, '>').Some?; Some(Some(m.group))
        case None => Some(None),
      if ActionMarker(line) && ActionText(line).Some? then
        StripIdempotent(ActionText(line).value, Python); Some(Strip(ActionText(line).value, Python))
      else None)
  }

  /** One iteration of the loop, on the facts of its line. */
  function StepOn(st: AsmState, l: LineFacts): AsmState {
    if l.description.Some? then
      st.(inDescription := true, description := l.description.value)
    else if st.inDescription && l.quoted.Some? then
      st.(description := st.description + " " + l.quoted.value)
    else if l.header.Some? then
      match l.header.value
      case Some(name) => AsmState(st.description, Morphisms(st), Some(Morphism(name, [])), 0, false)
      case None => st.(copies := if st.current.Some? then st.copies + 1 else st.copies, inDescription := false)
    else if st.current.Some? && l.action.Some? then
      var m := st.current.value;
      st.(current := Some(m.(actions := m.actions + [l.action.value])))
    else st
  }

  /** One iteration of the loop over `lines[1:]`.  The second test of the
      morphism branch, `re.search(r'[│├└](?:──)?\s*<Morphism:', line)`,
      implies the first, `'<Morphism:' in line`, and is not repeated. */
  function Step(st: AsmState, line: string): AsmState {
    StepOn(st, Classify(line))
  }

  function AsmFrom(st: AsmState, lines: seq<string>): AsmState {
    if |lines| == 0 then st else Step(AsmFrom(st, lines[..|lines| - 1]), lines[|lines| - 1])
  }

  /** The number of leading characters of `^[\s│├└─]*`. */
  function HeaderDepth(line: string): nat {
    Span(line, IsDepthChar)
  }

  /** The value `parse_entity` returns for `block`. */
  function ParseEntitySpec(block: string): Option<Entity> {
    var lines := Split(block);
    match HeaderGroup(lines[0])
    case None => None
    case Some(g) =>
      var st := AsmFrom(Init, lines[1..]);
      Some(Entity(Strip(g, Python), st.description, Morphisms(st), [], HeaderDepth(lines[0])))
  }

  /** `parse_entity` yields `None` exactly when the first line matches neither
      alternative of the header pattern.  Otherwise the name is the stripped
      capture, there are no children yet, and the depth is the length of the
      maximal leading run of whitespace and `│├└─` characters. */
  lemma ParseEntityHeader(block: string)
    ensures var line := Split(block)[0];
      ParseEntitySpec(block).None? <==>
        (forall j :: GroupAt(line, j, "<Entity:", true, Python, '>').None?) && TreeHeaderGroup(line).None?
    ensures var line := Split(block)[0];
      ParseEntitySpec(block).Some? ==>
        && ParseEntitySpec(block).value.name == Strip(HeaderGroup(line).value, Python)
        && ParseEntitySpec(block).value.children == []
        && var d := ParseEntitySpec(block).value.depth;
           d <= |line| && (forall i :: 0 <= i < d ==> IsDepthChar(line[i])) && (d < |line| ==> !IsDepthChar(line[d]))
  {
    var line := Split(block)[0];
    if FirstGroup(line, "<Entity:", true, Python, '>', 0).Some? {
      var m := FirstGroup(line, "<Entity:", true, Python, '>', 0).value;
      assert GroupAt(line, m.pos, "<Entity:", true, Python, '>').Some?;
    }
  }

  /** A header drawn under a parent branch, `│   ├── <Entity: Login>`, is not
      matched by the first alternative at position 0, whose optional prefix
      allows one box character followed only by `──` or whitespace.  The
      second alternative matches there instead, and its group `<([^>]+)>`
      takes in the tag word: the entity is named `Entity: Login`. */
  lemma IndentedHeaderEntity(line: string)
    requires line == ['│', ' ', ' ', ' ', '├', '─', '─', ' ', '<', 'E', 'n', 't', 'i', 't', 'y', ':', ' ', 'L', 'o', 'g', 'i', 'n', '>']
    ensures ParseEntitySpec(line) == Some(Entity("Entity: Login", "", [], [], 8))
  {
    IndentedPrefix(line);
    IndentedTag(line);
    BranchEntity(line, 22);
    LoginUnpadded(line[9..22]);
  }

  lemma IndentedPrefix(line: string)
    requires line == ['│', ' ', ' ', ' ', '├', '─', '─', ' ', '<', 'E', 'n', 't', 'i', 't', 'y', ':', ' ', 'L', 'o', 'g', 'i', 'n', '>']
    ensures |line| == 23 && '\n' !in line && BranchPrefix(line)
  {
  }

  lemma IndentedTag(line: string)
    requires line == ['│', ' ', ' ', ' ', '├', '─', '─', ' ', '<', 'E', 'n', 't', 'i', 't', 'y', ':', ' ', 'L', 'o', 'g', 'i', 'n', '>']
    ensures line[22] == '>' && line[9..22] == "Entity: Login"
    ensures forall i :: 9 <= i < 22 ==> line[i] != '>' && line[i] != '<'
  {
  }

  /** `│   ├── <`: one vertical bar, three spaces, a branch connector and a
      space before the tag's `<`. */
  predicate BranchPrefix(line: string) {
    && |line| > 8 && line[0] == '│' && line[1] == ' ' && line[2] == ' ' && line[3] == ' '
    && line[4] == '├' && line[5] == '─' && line[6] == '─' && line[7] == ' ' && line[8] == '<'
  }

  /** After such a prefix the header is named by the whole bracket text
      `line[9..k]`. */
  lemma BranchHeader(line: string, k: nat)
    requires BranchPrefix(line) && 9 < k < |line| && line[k] == '>' && k + 1 == |line|
    requires forall i :: 9 <= i < k ==> line[i] != '>' && line[i] != '<'
    ensures HeaderGroup(line) == Some(line[9..k])
  {
    BranchTreeGroup(line, k);
    BranchNotFirstAlternative(line, k);
  }

  lemma LoginUnpadded(n: string)
    requires n == "Entity: Login"
    ensures Strip(n, Python) == n
  {
    StripUnpadded(n, Python);
  }

  /** A one-line block headed by such a prefix is the entity named by the
      stripped bracket text, at depth 8. */
  lemma BranchEntity(line: string, k: nat)
    requires BranchPrefix(line) && 9 < k < |line| && line[k] == '>' && k + 1 == |line| && '\n' !in line
    requires forall i :: 9 <= i < k ==> line[i] != '>' && line[i] != '<'
    ensures ParseEntitySpec(line) == Some(Entity(Strip(line[9..k], Python), "", [], [], 8))
  {
    BranchHeader(line, k);
    BranchDepth(line);
    HeaderOnly(line);
  }

  /** The prefix is the leading run of depth characters. */
  lemma BranchDepth(line: string)
    requires BranchPrefix(line)
    ensures HeaderDepth(line) == 8
  {
    assert forall i :: 0 <= i < 8 ==> IsDepthChar(line[i]);
  }

  /** A block of one header line is the entity of that header alone. */
  lemma HeaderOnly(line: string)
    requires '\n' !in line && HeaderGroup(line).Some?
    ensures ParseEntitySpec(line) == Some(Entity(Strip(HeaderGroup(line).value, Python), "", [], [], HeaderDepth(line)))
  {
    SplitNoNewline(line);
    assert [line][1..] == [];
  }

  /** The first alternative can only match at the tag, and the text before
      it is not an allowed prefix. */
  lemma BranchNotFirstAlternative(line: string, k: nat)
    requires BranchPrefix(line) && k + 1 == |line|
    requires forall i :: 9 <= i < k ==> line[i] != '<'
    ensures var alt1 := FirstGroup(line, "<Entity:", true, Python, '>', 0);
      !(alt1.Some? && EntityPrefix(line[..alt1.value.pos]))
  {
    var alt1 := FirstGroup(line, "<Entity:", true, Python, '>', 0);
    if alt1.Some? {
      var q := alt1.value.pos;
      assert GroupAt(line, q, "<Entity:", true, Python, '>').Some?;
      TagAtEight(line, k, q);
      var w := line[..8];
      assert w[1] == line[1] && w[4] == line[4];
      PrefixNotAllowed(w);
    }
  }

  lemma TagAtEight(line: string, k: nat, q: nat)
    requires BranchPrefix(line) && k + 1 == |line|
    requires forall i :: 9 <= i < k ==> line[i] != '<'
    requires StartsWithAt(line, q, "<Entity:")
    ensures q == 8
  {
    assert line[q..q + 8][0] == '<';
  }

  /** `│   ├── ` is not a prefix the first alternative allows. */
  lemma PrefixNotAllowed(w: string)
    requires |w| == 8 && w[1] == ' ' && w[4] == '├'
    ensures !EntityPrefix(w)
  {
    assert w[1..][3] == '├';
    assert !IsSpace('├', Python);
  }

  lemma BranchTreeGroup(line: string, k: nat)
    requires BranchPrefix(line) && 9 < k < |line| && line[k] == '>'
    requires forall i :: 9 <= i < k ==> line[i] != '>'
    ensures TreeHeaderGroup(line) == Some(line[9..k])
  {
    assert Span(line, c => IsSpace(c, Python) || c == '│') == 4;
    assert StartsWithAt(line, 4, "├──");
    assert line[7..][0] == ' ' && line[7..][1] == '<';
    assert Span(line[7..], c => IsSpace(c, Python)) == 1;
    assert StartsWithAt(line, 8, "<");
    assert IndexOf(line, '>', 9) == Some(k);
  }

  // ---------------------------------------------------------------------
  // The open morphism, actions and description mode, one line at a time.

  /** A morphism header with a well-formed name flushes the open morphism:
      the entity's list grows by exactly the new, still empty morphism, which
      becomes the open one, and description mode ends. */
  lemma MorphismHeaderFlushes(st: AsmState, line: string, m: Match)
    requires !Contains(line, "Description:") && !IsContinuation(st, line)
    requires FirstGroup(line, "<Morphism:", true, Python, '>', 0) == Some(m)
    ensures Morphisms(Step(st, line)) == Morphisms(st) + [Morphism(m.group, [])]
    ensures Step(st, line).current == Some(Morphism(m.group, [])) && !Step(st, line).inDescription
  {
    assert GroupAt(line, m.pos, "<Morphism:", true, Python, '>').Some?;
    ContainsAt(line, "<Morphism:", m.pos);
    assert Repeat(Morphism(m.group, []), 1) == [Morphism(m.group, [])];
  }

  /** A morphism header whose name does not match still appends the open
      morphism, which stays open: the list gains a second entry for it. */
  lemma UnnamedMorphismHeader(st: AsmState, line: string)
    requires !Contains(line, "Description:") && !IsContinuation(st, line) && Contains(line, "<Morphism:")
    requires FirstGroup(line, "<Morphism:", true, Python, '>', 0).None?
    requires st.current.None? ==> st.copies == 0
    ensures Morphisms(Step(st, line)) == Morphisms(st) + (if st.current.Some? then [st.current.value] else [])
    ensures Step(st, line).current == st.current && !Step(st, line).inDescription
  {
    StepHeader(st, line);
    if st.current.Some? {
      var c := st.current.value;
      assert Repeat(c, st.copies + 2) == Repeat(c, st.copies + 1) + [c];
    }
  }

  /** An action line is recorded, stripped, only while a morphism is open,
      and it goes to that morphism, in every list entry it has. */
  lemma ActionLine(st: AsmState, line: string)
    requires !Contains(line, "Description:") && !IsContinuation(st, line) && !Contains(line, "<Morphism:")
    ensures st.current.None? ==> Step(st, line) == st
    ensures st.current.Some? && ActionMarker(line) && ActionText(line).Some? ==>
      var c := st.current.value;
      var c' := c.(actions := c.actions + [Strip(ActionText(line).value, Python)]);
      Morphisms(Step(st, line)) == st.closed + Repeat(c', st.copies + 1)
  {
    StepAction(st, line);
    if st.current.Some? && ActionMarker(line) && ActionText(line).Some? {
      var c := st.current.value;
      ActionRecorded(st, c.(actions := c.actions + [Strip(ActionText(line).value, Python)]));
    }
  }

  lemma ActionRecorded(st: AsmState, c': Morphism)
    requires st.current.Some?
    ensures Morphisms(st.(current := Some(c'))) == st.closed + Repeat(c', st.copies + 1)
  {
  }

  /** `Description:` is tested first: such a line never touches the
      morphisms, even when it also holds a morphism header or an action. */
  lemma DescriptionLineFirst(st: AsmState, line: string)
    requires Contains(line, "Description:")
    ensures Morphisms(Step(st, line)) == Morphisms(st)
    ensures Step(st, line).inDescription && Step(st, line).description == DescriptionValue(line)
    ensures FirstQuoted(line, "Description:", Python, true, 0).Some? ==>
      Step(st, line).description == FirstQuoted(line, "Description:", Python, true, 0).value.group
  {
    StepDescription(st, line);
  }

  // ---------------------------------------------------------------------
  // Whole-block properties.

  /** A morphism as `parse_entity` can produce it: a non-empty name without
      `>`, and stripped actions. */
  predicate GoodMorphism(m: Morphism) {
    && |m.name| >= 1 && '>' !in m.name
    && forall k :: 0 <= k < |m.actions| ==> Strip(m.actions[k], Python) == m.actions[k]
  }

  predicate Inv(st: AsmState) {
    && (st.current.None? ==> st.copies == 0)
    && (st.current.Some? ==> GoodMorphism(st.current.value))
    && (forall k :: 0 <= k < |st.closed| ==> GoodMorphism(st.closed[k]))
  }

  lemma MorphismsGood(st: AsmState)
    requires Inv(st)
    ensures forall k :: 0 <= k < |Morphisms(st)| ==> GoodMorphism(Morphisms(st)[k])
  {
  }

  lemma StepInv(st: AsmState, line: string)
    requires Inv(st)
    ensures Inv(Step(st, line))
  {
    MorphismsGood(st);
    var l := Classify(line);
    if l.description.None? && !(st.inDescription && l.quoted.Some?) && l.header.None? && st.current.Some? && l.action.Some? {
      var c := st.current.value;
      var c' := c.(actions := c.actions + [l.action.value]);
      forall k | 0 <= k < |c'.actions| ensures Strip(c'.actions[k], Python) == c'.actions[k] {
        if k < |c.actions| { assert c'.actions[k] == c.actions[k]; }
      }
    }
  }

  lemma {:induction false} AsmInv(lines: seq<string>)
    ensures Inv(AsmFrom(Init, lines))
  {
    if |lines| > 0 {
      AsmInv(lines[..|lines| - 1]);
      StepInv(AsmFrom(Init, lines[..|lines| - 1]), lines[|lines| - 1]);
    }
  }

  /** Every morphism of a parsed entity has a non-empty name (from the
      `[^>]+` group) and every recorded action is stripped. */
  lemma ParsedMorphismsGood(block: string)
    requires ParseEntitySpec(block).Some?
    ensures forall k :: 0 <= k < |ParseEntitySpec(block).value.morphisms| ==>
      GoodMorphism(ParseEntitySpec(block).value.morphisms[k])
  {
    AsmInv(Split(block)[1..]);
    MorphismsGood(AsmFrom(Init, Split(block)[1..]));
  }

  /** `if action:` is tested before `.strip()`: an action text made only of
      whitespace passes the test and is recorded, stripped to the empty
      string, on the open morphism. */
  lemma BlankActionRecorded(st: AsmState, line: string)
    requires !Contains(line, "Description:") && !IsContinuation(st, line) && !Contains(line, "<Morphism:")
    requires st.current.Some? && ActionMarker(line) && ActionText(line).Some?
    requires AllSpace(ActionText(line).value, Python)
    ensures Step(st, line).current == Some(st.current.value.(actions := st.current.value.actions + [""]))
  {
    StepAction(st, line);
  }

  lemma BlankActionLabels(line: string)
    requires line == ['│', ' ', '[', ' ', ']']
    ensures !Contains(line, "Description:") && !Contains(line, "<Morphism:")
    ensures !StartsWith(Strip(line, Python), "\"")
  {
    StripUnpadded(line, Python);
    assert line[0] != '"';
  }

  lemma BlankActionText(line: string)
    requires line == ['│', ' ', '[', ' ', ']']
    ensures ActionMarker(line) && ActionText(line) == Some([' '])
  {
    assert !StartsWithAt(line, 1, "──") by { assert line[1] != '─'; }
    assert line[1..][1..] == ['[', ' ', ']'];
    assert Span(line[1..], c => IsSpace(c, Python)) == 1;
    assert AfterBox(line, 0) == 2;
    assert FirstBox(line, 0) == Some(0);
    assert IndexOf(line, ']', 3) == Some(4);
    assert line[3..4] == [' '];
  }

  /** The action line `│ [ ]` is such a line: it is no label, continuation or
      header line, and its action text is one space. */
  lemma BlankActionLine(line: string)
    requires line == ['│', ' ', '[', ' ', ']']
    ensures !Contains(line, "Description:") && !Contains(line, "<Morphism:")
    ensures !StartsWith(Strip(line, Python), "\"")
    ensures ActionMarker(line) && ActionText(line) == Some([' ']) && AllSpace([' '], Python)
  {
    BlankActionLabels(line);
    BlankActionText(line);
  }

  /** A line that is no description, continuation, morphism header or
      action changes nothing.  A second entity header inside a block is such
      a line: the block parses to the entity of its first line alone. */
  lemma SecondHeaderIgnored(a: string, b: string)
    requires '\n' !in a && '\n' !in b && HeaderGroup(a).Some?
    requires !Contains(b, "Description:") && !Contains(b, "<Morphism:")
    requires !StartsWith(Strip(b, Python), "\"") && !ActionMarker(b)
    ensures ParseEntitySpec(a + "\n" + b) == Some(Entity(Strip(HeaderGroup(a).value, Python), "", [], [], HeaderDepth(a)))
  {
    SplitPrefix(a, b);
    SplitNoNewline(b);
    assert Split(a + "\n" + b) == [a, b];
    assert [a, b][1..] == [b] && [b][..0] == [];
    StepAction(Init, b);
    assert AsmFrom(Init, [b]) == Init;
  }

  /** A block without a morphism header yields an entity without morphisms:
      action lines before any morphism header are not recorded. */
  lemma {:induction false} NoHeaderNoMorphisms(lines: seq<string>)
    requires forall k :: 0 <= k < |lines| ==> !Contains(lines[k], "<Morphism:")
    ensures AsmFrom(Init, lines).current.None? && AsmFrom(Init, lines).closed == []
    ensures Morphisms(AsmFrom(Init, lines)) == []
  {
    if |lines| > 0 {
      NoHeaderNoMorphisms(lines[..|lines| - 1]);
    }
  }

  /** A block without a `Description:` line has the empty description. */
  lemma {:induction false} NoLabelNoDescription(lines: seq<string>)
    requires forall k :: 0 <= k < |lines| ==> !Contains(lines[k], "Description:")
    ensures AsmFrom(Init, lines).description == "" && !AsmFrom(Init, lines).inDescription
  {
    if |lines| > 0 {
      NoLabelNoDescription(lines[..|lines| - 1]);
    }
  }

  function Names(ms: seq<Morphism>): (r: seq<string>)
    ensures |r| == |ms| && forall k :: 0 <= k < |ms| ==> r[k] == ms[k].name
  {
    seq(|ms|, k requires 0 <= k < |ms| => ms[k].name)
  }

  /** A line that is neither a description line nor can be read as a
      continuation of one. */
  predicate Plain(line: string) {
    !Contains(line, "Description:") && !StartsWith(Strip(line, Python), "\"")
  }

  /** Every morphism header of `lines` carries a well-formed name. */
  predicate NamedHeaders(lines: seq<string>) {
    forall k :: 0 <= k < |lines| ==>
      Contains(lines[k], "<Morphism:") ==> FirstGroup(lines[k], "<Morphism:", true, Python, '>', 0).Some?
  }

  /** The names of the morphism header lines of `lines`, in order. */
  function HeaderNames(lines: seq<string>): seq<string>
    requires NamedHeaders(lines)
  {
    if |lines| == 0 then []
    else
      var last := lines[|lines| - 1];
      HeaderNames(lines[..|lines| - 1]) +
        (if Contains(last, "<Morphism:") then [FirstGroup(last, "<Morphism:", true, Python, '>', 0).value.group] else [])
  }

  lemma NamesStepOn(st: AsmState, l: LineFacts)
    requires l.description.None? && l.quoted.None?
    requires l.header.Some? ==> l.header.value.Some?
    ensures Names(Morphisms(StepOn(st, l))) == Names(Morphisms(st)) +
      (if l.header.Some? then [l.header.value.value] else [])
  {
    if l.header.Some? {
      var m := Morphism(l.header.value.value, []);
      assert Repeat(m, 1) == [m];
      assert Names(Morphisms(st) + [m]) == Names(Morphisms(st)) + [m.name];
    } else if st.current.Some? && l.action.Some? {
      var c := st.current.value;
      var c' := c.(actions := c.actions + [l.action.value]);
      assert Names(st.closed + Repeat(c', st.copies + 1)) == Names(st.closed + Repeat(c, st.copies + 1));
    }
  }

  lemma NamesStep(st: AsmState, line: string)
    requires Plain(line)
    requires Contains(line, "<Morphism:") ==> FirstGroup(line, "<Morphism:", true, Python, '>', 0).Some?
    ensures Names(Morphisms(Step(st, line))) == Names(Morphisms(st)) +
      (if Contains(line, "<Morphism:") then [FirstGroup(line, "<Morphism:", true, Python, '>', 0).value.group] else [])
  {
    NamesStepOn(st, Classify(line));
  }

  /** A line without `<Morphism:` leaves the names of the morphisms alone,
      whichever of the description, continuation and action branches it
      takes. */
  lemma NamesNoHeader(st: AsmState, line: string)
    requires !Contains(line, "<Morphism:")
    ensures Names(Morphisms(Step(st, line))) == Names(Morphisms(st))
  {
    NamesNoHeaderOn(st, Classify(line));
  }

  lemma NamesNoHeaderOn(st: AsmState, l: LineFacts)
    requires l.header.None?
    ensures Names(Morphisms(StepOn(st, l))) == Names(Morphisms(st))
  {
    if l.description.None? && !(st.inDescription && l.quoted.Some?) && st.current.Some? && l.action.Some? {
      var c := st.current.value;
      var c' := c.(actions := c.actions + [l.action.value]);
      assert Names(st.closed + Repeat(c', st.copies + 1)) == Names(st.closed + Repeat(c, st.copies + 1));
    }
  }

  /** When every header line is well formed and is neither a description
      line nor a continuation, the entity's morphisms are exactly its header
      lines' names, in the order of those lines. */
  lemma {:induction false} MorphismOrder(lines: seq<string>)
    requires forall k :: 0 <= k < |lines| ==> Contains(lines[k], "<Morphism:") ==> Plain(lines[k])
    requires NamedHeaders(lines)
    ensures Names(Morphisms(AsmFrom(Init, lines))) == HeaderNames(lines)
  {
    if |lines| > 0 {
      var prefix := lines[..|lines| - 1];
      var line := lines[|lines| - 1];
      assert NamedHeaders(prefix) by {
        forall k | 0 <= k < |prefix| ensures Contains(prefix[k], "<Morphism:") ==> FirstGroup(prefix[k], "<Morphism:", true, Python, '>', 0).Some? {
          assert prefix[k] == lines[k];
        }
      }
      MorphismOrder(prefix);
      if Contains(line, "<Morphism:") {
        NamesStep(AsmFrom(Init, prefix), line);
      } else {
        NamesNoHeader(AsmFrom(Init, prefix), line);
      }
    }
  }

  // ---------------------------------------------------------------------

  // The four branches of the loop body, one lemma each.

  lemma StepDescription(st: AsmState, line: string)
    requires Contains(line, "Description:")
    ensures Step(st, line) == st.(inDescription := true, description := DescriptionValue(line))
  {
  }

  lemma StepContinuation(st: AsmState, line: string)
    requires !Contains(line, "Description:") && IsContinuation(st, line)
    ensures Step(st, line) == st.(description := st.description + " " + StripChar(Strip(line, Python), '"'))
  {
  }

  lemma StepHeader(st: AsmState, line: string)
    requires !Contains(line, "Description:") && !IsContinuation(st, line) && Contains(line, "<Morphism:")
    ensures Step(st, line) ==
      match FirstGroup(line, "<Morphism:", true, Python, '>', 0)
      case Some(m) => AsmState(st.description, Morphisms(st), Some(Morphism(m.group, [])), 0, false)
      case None => st.(copies := if st.current.Some? then st.copies + 1 else st.copies, inDescription := false)
  {
  }

  lemma StepAction(st: AsmState, line: string)
    requires !Contains(line, "Description:") && !IsContinuation(st, line) && !Contains(line, "<Morphism:")
    ensures Step(st, line) ==
      if st.current.Some? && ActionMarker(line) && ActionText(line).Some? then
        var m := st.current.value;
        st.(current := Some(m.(actions := m.actions + [Strip(ActionText(line).value, Python)])))
      else st
  {
  }

  /** The `Description:` branch: the quoted capture, or else the text after
      the label stripped of whitespace and quotes. */
  method Describe(line: string) returns (description: string)
    requires Contains(line, "Description:")
    ensures description == DescriptionValue(line)
  {
    var descMatch := FirstQuoted(line, "Description:", Python, true, 0);
    if descMatch.Some? {
      description := descMatch.value.group;
    } else {
      description := StripChar(Strip(After(line, "Description:"), Python), '"');
    }
  }

  /** The `<Morphism:` branch: the open morphism is appended, and a header
      whose name matches replaces it by a new, empty one. */
  method OpenMorphism(st: AsmState, line: string) returns (closed: seq<Morphism>, currentMorphism: Option<Morphism>, copies: nat)
    ensures (closed, currentMorphism, copies) ==
      match FirstGroup(line, "<Morphism:", true, Python, '>', 0)
      case Some(m) => (Morphisms(st), Some(Morphism(m.group, [])), 0)
      case None => (st.closed, st.current, if st.current.Some? then st.copies + 1 else st.copies)
  {
    closed, currentMorphism, copies := st.closed, st.current, st.copies;
    if currentMorphism.Some? {
      copies := copies + 1;   // morphisms.append(current_morphism)
    }
    var morphMatch := FirstGroup(line, "<Morphism:", true, Python, '>', 0);
    if morphMatch.Some? {
      if currentMorphism.Some? {
        assert closed + Repeat(currentMorphism.value, copies) == Morphisms(st);
        closed := closed + Repeat(currentMorphism.value, copies);
      }
      currentMorphism := Some(Morphism(morphMatch.value.group, []));
      copies := 0;
    }
  }

  /** The body of the loop of `parse_entity` for one line: the loop
      variables before and after it are the states `st` and `Step(st, line)`. */
  method AssembleLine(description0: string, closed0: seq<Morphism>, current0: Option<Morphism>, copies0: nat, inDescription0: bool, line: string)
    returns (description: string, closed: seq<Morphism>, currentMorphism: Option<Morphism>, copies: nat, inDescription: bool)
    ensures AsmState(description, closed, currentMorphism, copies, inDescription)
         == Step(AsmState(description0, closed0, current0, copies0, inDescription0), line)
  {
    var st := AsmState(description0, closed0, current0, copies0, inDescription0);
    description, closed, currentMorphism, copies, inDescription := description0, closed0, current0, copies0, inDescription0;
    if Contains(line, "Description:") {
      StepDescription(st, line);
      inDescription := true;
      description := Describe(line);
    } else if inDescription && StartsWith(Strip(line, Python), "\"") {
      StepContinuation(st, line);
      description := description + " " + StripChar(Strip(line, Python), '"');
    } else if Contains(line, "<Morphism:") {
      StepHeader(st, line);
      inDescription := false;
      closed, currentMorphism, copies := OpenMorphism(st, line);
    } else {
      StepAction(st, line);
      if currentMorphism.Some? && ActionMarker(line) {
        var action := ActionText(line);
        if action.Some? {
          var m := currentMorphism.value;
          currentMorphism := Some(m.(actions := m.actions + [Strip(action.value, Python)]));
        }
      }
    }
  }

  lemma AsmNext(body: seq<string>, i: nat)
    requires i < |body|
    ensures AsmFrom(Init, body[..i + 1]) == Step(AsmFrom(Init, body[..i]), body[i])
  {
    assert body[..i + 1][..i] == body[..i];
  }

  /** The loop of `parse_entity` over the lines after the header, proved to
      compute `AsmFrom`, and its final flush of the open morphism. */
  method AssembleBody(body: seq<string>) returns (description: string, morphisms: seq<Morphism>)
    ensures description == AsmFrom(Init, body).description
    ensures morphisms == Morphisms(AsmFrom(Init, body))
  {
    description := "";
    var closed: seq<Morphism> := [];
    var currentMorphism: Option<Morphism> := None;
    var copies: nat := 0;
    var inDescription := false;
    for i := 0 to |body|
      invariant AsmFrom(Init, body[..i]) == AsmState(description, closed, currentMorphism, copies, inDescription)
    {
      AsmNext(body, i);
      description, closed, currentMorphism, copies, inDescription :=
        AssembleLine(description, closed, currentMorphism, copies, inDescription, body[i]);
    }
    assert body[..|body|] == body;
    morphisms := if currentMorphism.Some? then closed + Repeat(currentMorphism.value, copies + 1) else closed;
  }

  /** `parse_entity`, proved to compute `ParseEntitySpec`. */
  method ParseEntity(block: string) returns (entity: Option<Entity>)
    ensures entity == ParseEntitySpec(block)
  {
    var lines := Split(block);
    var g := HeaderGroup(lines[0]);
    if g.None? {
      return None;
    }
    var name := Strip(g.value, Python);
    var depth := HeaderDepth(lines[0]);
    var description, morphisms := AssembleBody(lines[1..]);
    entity := Some(Entity(name, description, morphisms, [], depth));
  }
}
