# Entity annotation parsers, modelled in Dafny

The repository reads a tree-drawn annotation format. It describes a site as
a hierarchy of Entities (`<Entity: NAME>`). Each has a description and
Morphisms (`<Morphism: NAME>`), and each morphism has an ordered list of
Actions (`[TEXT]`). Two independent parsers read it. This project models
both and proves what they guarantee.

**Python stream parser** (`parse_entities.py`), in four stages:

- `NegativeSpace`: `find_negative_space`, the runs of whitespace-only lines.
- `Segmenter`: `extract_entity_blocks`, which cuts the text into entity
  blocks. A blank line closes a block only while the heuristic entity depth
  is zero.
- `Assembler`: `parse_entity`, the per-block state machine. It tracks the
  open morphism and the description mode.
- `TreeBuilder`: `build_entity_tree`, the depth stack that turns the flat
  entity list into a forest.

**JavaScript parser** (`entity_parser.js`):

- `Escape`: `escapeSpecialChars`, a chain of eight replace-alls.
- `JsBlocks`: `extractBlocks`, which splits the text at separator lines of
  56 dashes.
- `JsBlockParser`: `parseEntityBlock`, which turns one block into a nested
  object under an unnamed root.

**Shared modules:**

- `Strings`: line splitting and joining, and whitespace stripping. Python's
  `str.strip` and JavaScript's `trim` each get their own whitespace set.
- `Patterns`: one hand-written matcher per fixed regular expression of the
  source.
- `Model`: the `Morphism` and `Entity` records.

**How the source is modelled.** Every loop of the source is a `method` with
the same loop. Most loop bodies sit in a helper method of their own; the two
exceptions are the loop of `TreeBuilder.ParseAll`, which calls
`Assembler.ParseEntity` directly, and the pop loop `TreeBuilder.PopDeeper`,
which pops inline after the lemma `TreeBuilder.PopStep`. Two kinds of proof
are used:

- Most loops are proved against a specification function: a fold of one
  loop step over the lines read so far. The loop invariant says the loop
  variables equal that fold, and the properties are proved as lemmas about
  the fold. This holds for `extract_entity_blocks`, `parse_entity`, the
  parsing loop of `build_entity_tree`, `extractBlocks` and
  `parseEntityBlock`. Their helpers (`SegmentLine`, `AssembleLine`,
  `BlockLine`, `ParseLine`) each compute exactly one step of the fold.
- Two loops are proved against a predicate that characterises their
  result instead of a fold:
  - `find_negative_space`: `NegativeSpace.FindNegativeSpace` keeps the
    invariant `Scanned`, and its helper `ScanLine` preserves it.
  - The stack loop of `build_entity_tree`: the pop loop
    `TreeBuilder.PopDeeper` keeps `Popping`. `TreeBuilder.LinkByDepth` and
    its helper `PlaceEntity` keep `StackInv` and `Linked`, which tie the
    links to the nearest shallower predecessor.

**How in-place mutation is represented:**

- Python's `current_morphism` may be appended to `morphisms` and then stay
  open, when a `<Morphism:` line has no well-formed name. This aliasing is
  represented by a count of trailing copies of the open morphism.
- The `children` lists that `build_entity_tree` fills in place are index
  lists.
- The objects `parseEntityBlock` links together are a sequence of nodes
  addressed by index. `currentMorphism` is the pair (owner node, position).

**Where the code and the format's description differ, the model follows the
code:**

- Python tests `if action:` before stripping. So `│ [ ]` records an empty
  action, and recorded actions are stripped but not always non-empty
  (`Assembler.BlankActionRecorded`).
- In Python, depth rises on every `<Entity:` line and falls only on a
  `└──` line. So a blank line after an entity header that no `└──` line has
  closed does not end its block, and the next header joins the same block.
  `parse_entity` has no branch for a second header and ignores it. So
  `<Entity: A>`, a blank line, `<Entity: B>` gives one block and one entity,
  A, and B is lost (`Segmenter.BlankKeptInsideEntity`,
  `Assembler.SecondHeaderIgnored`, `TreeBuilder.MergedEntities`). Entities
  separated by blank lines do not always become sibling roots.
- In Python, a header with anything before its connector, such as
  `│   ├── <Entity: Login>`, does not match the first alternative of the
  header pattern at position 0: its optional prefix is one box character
  followed only by `──` or whitespace. The second alternative matches there
  instead, and its group `<([^>]+)>` takes in the tag word, so the entity is
  named `Entity: Login`, not `Login`, with depth 8
  (`Assembler.IndentedHeaderEntity`). A header at column 0, such as
  `├── <Entity: X>`, is still named `X`. Names therefore do not always match
  the `NAME` of the header.
- In JavaScript, escaping turns every `"` into `&quot;` before blocks are
  cut. So the `Description:\s*"…"` pattern can never match an extracted
  block, and no description is ever set
  (`JsBlockParser.ExtractedBlocksUndescribed`).

## Model

| member | source | states |
|---|---|---|
| Strings.Strip | parse_entities.py:34 | the stripped text is the line with a whitespace-only prefix and a whitespace-only suffix removed; it is empty exactly when the line is whitespace-only, and otherwise starts and ends with a non-space |
| Strings.StripChar | parse_entities.py:104 | `strip('"')` removes a prefix and a suffix made only of `"`, and the result neither starts nor ends with `"` |
| Strings.StripIdempotent | parse_entities.py:51 | stripping twice is stripping once |
| Strings.SplitJoin | parse_entities.py:54 | splitting the `'\n'`-join of newline-free lines at `'\n'` gives the lines back |
| NegativeSpace.StripBlank | parse_entities.py:34 | `not line.strip()` holds exactly for whitespace-only lines |
| NegativeSpace.ScanLine | parse_entities.py:34-39 | one loop step keeps the scan invariant: closed runs are maximal blank runs ended by a text line, increasing and disjoint, and the open run starts after the last closed one |
| NegativeSpace.FindNegativeSpace | parse_entities.py:27-41 | every pair (start, end) has start < end, all lines in [start, end) blank and line end not blank; the pairs are strictly increasing and disjoint; a line is covered exactly when it is blank and some later line holds text, so a blank run reaching the end is never reported |
| Segmenter.StepInv | parse_entities.py:50-71 | one line keeps the invariant: current block non-empty exactly when in an entity, depth zero outside an entity, every block well formed |
| Segmenter.BlocksWellFormed | parse_entities.py:50-76 | every block is non-empty, has a first line containing `<Entity:`, no whitespace-only line and no line break inside a line |
| Segmenter.BlocksInOrder | parse_entities.py:50-76 | the lines of all blocks, in order, form a subsequence of the input lines, unmodified |
| Segmenter.BlankLineRule | parse_entities.py:52-57 | a blank line leaves the depth alone; at depth zero it emits the non-empty current block and leaves the entity; at positive depth it is dropped and the block continues |
| Segmenter.DiscardUntilEntity | parse_entities.py:60-71 | outside an entity, lines without `<Entity:` change nothing, so they are discarded |
| Segmenter.EntityLineOpens | parse_entities.py:60-71 | an `<Entity:` line raises the depth by one and is appended to the current block |
| Segmenter.BlankKeptInsideEntity | parse_entities.py:52-71 | two newline-free lines holding `<Entity:`, separated by a blank line, form a single block, because the depth is still positive at the blank line |
| Segmenter.SegmentLine | parse_entities.py:51-71 | one loop step computes exactly the next state of the segmenter |
| Segmenter.ExtractEntityBlocks | parse_entities.py:43-76 | returns the joined blocks of the scan with the final flush, each split back into a well-formed block |
| Patterns.FirstGroup | parse_entities.py:112 | the leftmost position where `TAG\s*([^>]+)>` matches, with its capture; no match before it, and none at all when absent |
| Patterns.FirstQuoted | parse_entities.py:100 | the leftmost match of `Description:\s*"([^"]*)"`; its capture holds no `"` |
| Patterns.HeaderGroup | parse_entities.py:82 | the header capture is non-empty and free of `>`; it is absent exactly when neither alternative of the header pattern matches |
| Patterns.FirstBox | parse_entities.py:116 | the leftmost box-drawing character `│├└` |
| Patterns.ActionTextCaptured | parse_entities.py:118-120 | the action text is decided at the first box character of the line: after the connector and its spaces, it is the text between a `[` and the first `]` after it, or, when no such bracket pair follows, the rest of the line; it is absent exactly when there is no box character or that text is empty |
| Assembler.Classify | parse_entities.py:98-120 | the facts read off a line: a description exactly when `Description:` occurs, a quoted continuation exactly when the stripped line starts with `"`, a header exactly when `<Morphism:` occurs, with a non-empty name free of `>`, and a stripped action text |
| Assembler.ParseEntityHeader | parse_entities.py:82-127 | `None` exactly when the first line matches neither header alternative; otherwise the name is the stripped capture, there are no children, and the depth is the length of the maximal leading run of whitespace and `│├└─` |
| Assembler.IndentedHeaderEntity | parse_entities.py:82-92 | the header `│   ├── <Entity: Login>` is matched by the second alternative at position 0 and gives the entity named `Entity: Login`, with no description, morphisms or children, and depth 8 |
| Assembler.DescriptionLineFirst | parse_entities.py:98-104 | a `Description:` line wins over the other tests, turns description mode on, prefers the quoted capture, and leaves the morphisms alone |
| Assembler.StepContinuation | parse_entities.py:105-107 | in description mode, a line whose stripped form starts with `"` is appended after one space, stripped of quotes |
| Assembler.MorphismHeaderFlushes | parse_entities.py:108-115 | a named morphism header flushes the open morphism, opens a new empty one and ends description mode |
| Assembler.UnnamedMorphismHeader | parse_entities.py:108-111 | a `<Morphism:` line with no well-formed name appends the open morphism but keeps it open, and ends description mode |
| Assembler.ActionLine | parse_entities.py:116-122 | an action line changes nothing without an open morphism; otherwise it appends the stripped action text to the open morphism and all its appended copies |
| Assembler.BlankActionRecorded | parse_entities.py:118-122 | an action whose text is only whitespace is recorded as the empty string |
| Assembler.BlankActionLine | parse_entities.py:116-121 | the line `│ [ ]` is an action line whose action text is one space |
| Assembler.ParsedMorphismsGood | parse_entities.py:108-125 | every morphism of a parsed entity has a non-empty name without `>`, and every action is stripped |
| Assembler.NoHeaderNoMorphisms | parse_entities.py:108-125 | without `<Morphism:` lines no morphism is opened or recorded, so actions are recorded only while a morphism is open |
| Assembler.NoLabelNoDescription | parse_entities.py:87-107 | without `Description:` lines the description stays empty and description mode never starts |
| Assembler.NamesNoHeader | parse_entities.py:98-122 | a line without `<Morphism:` leaves the names of the morphisms unchanged, whether it is a description line, a continuation or an action |
| Assembler.MorphismOrder | parse_entities.py:97-125 | when every morphism header line has a well-formed name and is not itself a description line or a continuation, the morphism names are the header names in the order of their lines, counting the final flush; description and continuation lines may appear anywhere else |
| Assembler.SecondHeaderIgnored | parse_entities.py:97-127 | a second line that is no description, continuation, morphism header or action, such as a second entity header, leaves the block's entity as its first line alone gives it: no description, no morphisms |
| Assembler.AssembleLine | parse_entities.py:98-122 | one loop step computes exactly the next assembler state |
| Assembler.AssembleBody | parse_entities.py:94-125 | the description and morphisms after the loop and the final flush |
| Assembler.ParseEntity | parse_entities.py:78-127 | returns exactly the specified entity, `None` included |
| TreeBuilder.NearestSmaller | parse_entities.py:143-152 | the parent is the most recent preceding entity of strictly smaller depth, or -1 for a root |
| TreeBuilder.NearestSmallerUnique | parse_entities.py:143-152 | that parent is the only index with this property |
| TreeBuilder.MembersExact | parse_entities.py:147-150 | a children list holds exactly the entities whose parent it is, each once, in document order |
| TreeBuilder.ExactlyOnce | parse_entities.py:147-150 | every entity appears in exactly one list: its parent's children, or the roots |
| TreeBuilder.EqualDepthSiblings | parse_entities.py:144-145 | an entity at the same depth as an earlier one, with nothing shallower between them, shares its parent |
| TreeBuilder.DepthExample | parse_entities.py:143-152 | depths [0, 1, 2, 1, 0] give parents [-1, 0, 1, 0, -1] |
| TreeBuilder.PopDeeper | parse_entities.py:144-145 | popping stops at the nearest shallower entity, and the stack keeps strictly increasing depths |
| TreeBuilder.Place | parse_entities.py:147-152 | pushing the entity keeps the stack invariant; it becomes a child of the top of the stack if there is one, and a root otherwise |
| TreeBuilder.PlaceEntity | parse_entities.py:144-152 | one loop step keeps the stack invariant and the links of every entity placed so far |
| TreeBuilder.LinkByDepth | parse_entities.py:140-154 | every children list and the root list contain exactly the entities with that parent, in document order |
| TreeBuilder.LinksForward | parse_entities.py:147-150 | children come after their parent, so the nested forest is well defined |
| TreeBuilder.ParseAll | parse_entities.py:134-137 | the entities of the blocks in order, with the `None`s dropped |
| TreeBuilder.BuildEntityTree | parse_entities.py:129-154 | returns the forest of the parsed entities, linked by nearest shallower predecessor |
| TreeBuilder.MergedEntities | parse_entities.py:43-154 | the text `<Entity: A>`, a blank line, `<Entity: B>` gives the single block holding both lines, and the forest is the single root A with no description, morphisms or children |
| Escape.EscapeIsReference | entity_parser.js:26-37 | the eight replacements equal one left-to-right pass: `<Entity:` and `<Morphism:` are kept, `>` stays `>`, and `&`, `"`, `'` and every other `<` become `&amp;`, `&quot;`, `&apos;` and `&lt;` |
| Escape.EscapeShape | entity_parser.js:26-37 | the output holds no `"` and no `'`, and every `<` in it begins `<Entity:` or `<Morphism:` |
| Escape.UnescapeReference | entity_parser.js:26-37 | decoding the entities again recovers the input |
| Escape.EscapeInjective | entity_parser.js:26-37 | different inputs escape to different outputs |
| JsBlocks.StepInv | entity_parser.js:49-72 | one line keeps the invariant: a non-empty current block implies `inBlock`; collected lines are trimmed, non-empty, not the separator and free of `"` |
| JsBlocks.SeparatorRule | entity_parser.js:54-63 | a separator line emits the non-empty current block and leaves block mode, or otherwise just toggles `inBlock` |
| JsBlocks.ScanParity | entity_parser.js:54-63 | `inBlock` holds exactly after an odd number of separator lines |
| JsBlocks.BlocksCollect | entity_parser.js:40-80 | the lines of all blocks, in order, are the trimmed non-empty non-separator lines that follow an odd number of separators |
| JsBlocks.BlocksWellFormed | entity_parser.js:56-77 | every block, the final unterminated one included, is non-empty and made of good lines |
| JsBlocks.BlockLine | entity_parser.js:50-71 | one loop step computes exactly the next block state |
| JsBlocks.ExtractBlocks | entity_parser.js:40-80 | returns the specified blocks of the escaped text, each non-empty and well formed |
| Patterns.JsTagName | entity_parser.js:100-124 | the capture of `TAG\s*([^>]+)>`, used for `<Entity:` and `<Morphism:`, is non-empty, free of `>` and present only when the line contains the tag |
| JsBlockParser.Classify | entity_parser.js:99-138 | a line is classified by the first pattern it matches, in the order Entity, Description, Morphism, action; names, descriptions and actions are non-empty |
| JsBlockParser.ParsedChain | entity_parser.js:84-113 | the result is a chain under an unnamed root, and its names are the entity names of the lines in order |
| JsBlockParser.ParsedCaptures | entity_parser.js:117-137 | every description is free of `"`, every morphism name is non-empty and free of `>`, and every action is non-empty and free of `]`; actions are not trimmed |
| JsBlockParser.ExtractedBlocksUndescribed | entity_parser.js:20-117 | on an extracted block no description is ever set |
| JsBlockParser.NoMorphismYet | entity_parser.js:94-138 | there is a current morphism exactly when a morphism line has been read; before then nothing holds a morphism |
| JsBlockParser.ActionAfterNewEntity | entity_parser.js:110-137 | an entity header does not reset the current morphism, so a following action goes to the earlier entity's morphism |
| JsBlockParser.ParseLine | entity_parser.js:96-138 | one loop step computes exactly the next parser state |
| JsBlockParser.ParseEntityBlock | entity_parser.js:83-142 | returns exactly the specified object: a chain whose names are the empty root name followed by the entity names in order |

## Left out

- `main` of parse_entities.py reads a file at a fixed path. `print_entity_tree` writes to standard output. Both are I/O.
- `render`, `renderEntityToHtml`, the style injection and the global renderer object of entity_parser.js produce HTML and touch the DOM.
- `preprocessContent` also strips script and style elements, normalises line breaks and squeezes runs of empty lines. These backtracking regexes are treated as an opaque cleanup that happens earlier. `JsBlocks.ExtractBlocks` takes the cleaned text as its parameter and models only the escaping that follows.
- The unused fields `current_pos` and `entities` of `EntityParser` are not modelled.
- Regular expressions in general are not modelled. Each fixed pattern of the source has its own hand-written matcher in `Patterns`.
- Whitespace is the character set of Python's `str.isspace` and of JavaScript's `trim`. There is no Unicode normalisation.
- No Python object identity is modelled. The morphism aliasing is represented by a copy count. The children lists are index lists. The JavaScript objects are nodes addressed by index. `JsBlockParser.Tree` builds the final nested value from them.
- Assembler.ParsedMorphismsGood: states that actions are stripped, not that they are non-empty, because `│ [ ]` records an empty action (see `Assembler.BlankActionRecorded`).
