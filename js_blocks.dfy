/** `EntityRenderer.extractBlocks` of entity_parser.js: after escaping, the
    text is cut into blocks delimited by separator lines of 56 dashes. */
module JsBlocks {
  import opened Strings
  import opened Escape

  /** `'-'.repeat(56)`, set by the constructor. */
  const Separator: string := "--------------------------------------------------------"

  /** The loop's variables: `blocks` (each still as its list of lines),
      `currentBlock` and `inBlock`. */
  datatype BlockState = BlockState(blocks: seq<seq<string>>, current: seq<string>, inBlock: bool)

  const Start := BlockState([], [], false)

  /** One iteration over an untrimmed line. */
  function Step(st: BlockState, raw: string, sep: string): BlockState {
    var line := Strip(raw, JavaScript);
    if line == sep then
      if st.inBlock && |st.current| > 0 then BlockState(st.blocks + [st.current], [], false)
      else st.(inBlock := !st.inBlock)
    else if st.inBlock && |line| > 0 then st.(current := st.current + [line])
    else st
  }

  function Scan(st: BlockState, lines: seq<string>, sep: string): BlockState {
    if |lines| == 0 then st else Step(Scan(st, lines[..|lines| - 1], sep), lines[|lines| - 1], sep)
  }

  /** The final `if (currentBlock.length > 0)` flush. */
  function Finish(st: BlockState): seq<seq<string>> {
    if |st.current| > 0 then st.blocks + [st.current] else st.blocks
  }

  /** The blocks, as lists of lines, for the text `cleaned` that the
      script/style removal and line-break normalisation produced. */
  function BlockLines(cleaned: string): seq<seq<string>> {
    Finish(Scan(Start, Split(EscapeSpecialChars(cleaned)), Separator))
  }

  /** The value `extractBlocks` returns. */
  function Blocks(cleaned: string): seq<string> {
    JoinAll(BlockLines(cleaned))
  }

  // ---------------------------------------------------------------------
  // Shape of the blocks.

  /** A collected line: trimmed, not empty, not the separator, and free of
      line breaks and double quotes. */
  predicate GoodLine(l: string, sep: string) {
    && |l| > 0 && Strip(l, JavaScript) == l && l != sep
    && '\n' !in l && '"' !in l
  }

  predicate GoodBlock(b: seq<string>, sep: string) {
    |b| > 0 && forall k :: 0 <= k < |b| ==> GoodLine(b[k], sep)
  }

  /** The loop invariant: a non-empty `currentBlock` means `inBlock`. */
  predicate Inv(st: BlockState, sep: string) {
    && (|st.current| > 0 ==> st.inBlock)
    && (forall k :: 0 <= k < |st.current| ==> GoodLine(st.current[k], sep))
    && (forall k :: 0 <= k < |st.blocks| ==> GoodBlock(st.blocks[k], sep))
  }

  lemma TrimmedGood(raw: string, sep: string)
    requires '\n' !in raw && '"' !in raw
    requires |Strip(raw, JavaScript)| > 0 && Strip(raw, JavaScript) != sep
    ensures GoodLine(Strip(raw, JavaScript), sep)
  {
    var line := Strip(raw, JavaScript);
    StripIdempotent(raw, JavaScript);
    InfixChars(line, raw, '\n');
    InfixChars(line, raw, '"');
  }

  lemma StepInv(st: BlockState, raw: string, sep: string)
    requires Inv(st, sep) && '\n' !in raw && '"' !in raw
    ensures Inv(Step(st, raw, sep), sep)
  {
    var line := Strip(raw, JavaScript);
    if line == sep {
      if st.inBlock && |st.current| > 0 {
        CloseInv(st, sep);
      }
    } else if st.inBlock && |line| > 0 {
      TrimmedGood(raw, sep);
      CollectInv(st, line, sep);
    }
  }

  /** Emitting the current block keeps the invariant. */
  lemma CloseInv(st: BlockState, sep: string)
    requires Inv(st, sep) && |st.current| > 0
    ensures Inv(BlockState(st.blocks + [st.current], [], false), sep)
  {
    var st' := BlockState(st.blocks + [st.current], [], false);
    assert forall k :: 0 <= k < |st'.blocks| ==> st'.blocks[k] == if k < |st.blocks| then st.blocks[k] else st.current;
  }

  /** Collecting a good line keeps the invariant. */
  lemma CollectInv(st: BlockState, line: string, sep: string)
    requires Inv(st, sep) && st.inBlock && GoodLine(line, sep)
    ensures Inv(st.(current := st.current + [line]), sep)
  {
    var st' := st.(current := st.current + [line]);
    assert forall k :: 0 <= k < |st'.current| ==> st'.current[k] == if k < |st.current| then st.current[k] else line;
  }

  lemma {:induction false} ScanInv(st: BlockState, lines: seq<string>, sep: string)
    requires Inv(st, sep)
    requires forall k :: 0 <= k < |lines| ==> '\n' !in lines[k] && '"' !in lines[k]
    ensures Inv(Scan(st, lines, sep), sep)
  {
    if |lines| > 0 {
      ScanInv(st, lines[..|lines| - 1], sep);
      StepInv(Scan(st, lines[..|lines| - 1], sep), lines[|lines| - 1], sep);
    }
  }

  /** Every block is non-empty, the last unterminated one included, and each
      of its lines is a trimmed, non-empty, non-separator line; since the
      escaper has run first, no line holds a double quote. */
  lemma BlocksWellFormed(cleaned: string)
    ensures forall k :: 0 <= k < |BlockLines(cleaned)| ==> GoodBlock(BlockLines(cleaned)[k], Separator)
  {
    var text := EscapeSpecialChars(cleaned);
    EscapeShape(cleaned);
    SplitChars(text, '"');
    ScanInv(Start, Split(text), Separator);
  }

  /** Splitting a returned block gives back its lines. */
  lemma BlocksSplit(cleaned: string)
    ensures |Blocks(cleaned)| == |BlockLines(cleaned)|
    ensures forall k :: 0 <= k < |Blocks(cleaned)| ==> Split(Blocks(cleaned)[k]) == BlockLines(cleaned)[k]
  {
    BlocksWellFormed(cleaned);
    forall k | 0 <= k < |BlockLines(cleaned)| ensures Split(Join(BlockLines(cleaned)[k])) == BlockLines(cleaned)[k] {
      SplitJoin(BlockLines(cleaned)[k]);
    }
  }

  // ---------------------------------------------------------------------
  // Which lines are collected.

  predicate IsSeparator(raw: string, sep: string) {
    Strip(raw, JavaScript) == sep
  }

  /** Number of separator lines in `lines`. */
  function Separators(lines: seq<string>, sep: string): nat {
    if |lines| == 0 then 0
    else Separators(lines[..|lines| - 1], sep) + (if IsSeparator(lines[|lines| - 1], sep) then 1 else 0)
  }

  /** The trimmed lines that are neither empty nor a separator and follow an
      odd number of separator lines, in order. */
  function Kept(lines: seq<string>, sep: string): seq<string> {
    if |lines| == 0 then []
    else
      var prefix := lines[..|lines| - 1];
      Kept(prefix, sep) + Adds(lines[|lines| - 1], sep, Separators(prefix, sep) % 2 == 1)
  }

  function Collected(st: BlockState): seq<string> {
    Flatten(st.blocks) + st.current
  }

  lemma FlattenSnoc(bs: seq<seq<string>>, b: seq<string>)
    ensures Flatten(bs + [b]) == Flatten(bs) + b
  {
    assert (bs + [b])[..|bs|] == bs;
  }

  /** What one line adds to the collected lines, and how it moves
      `inBlock`. */
  function Adds(raw: string, sep: string, inBlock: bool): seq<string> {
    var t := Strip(raw, JavaScript);
    if t != sep && |t| > 0 && inBlock then [t] else []
  }

  lemma StepCollects(st: BlockState, raw: string, sep: string)
    ensures Step(st, raw, sep).inBlock == (if IsSeparator(raw, sep) then !st.inBlock else st.inBlock)
    ensures Collected(Step(st, raw, sep)) == Collected(st) + Adds(raw, sep, st.inBlock)
  {
    var st' := Step(st, raw, sep);
    if IsSeparator(raw, sep) {
      if st.inBlock && |st.current| > 0 {
        FlattenSnoc(st.blocks, st.current);
        assert Collected(st') == Flatten(st.blocks) + st.current + [];
      }
    } else if st.inBlock && |Strip(raw, JavaScript)| > 0 {
      assert Collected(st') == Flatten(st.blocks) + (st.current + [Strip(raw, JavaScript)]);
    }
  }

  lemma Parity(n: nat)
    ensures ((n + 1) % 2 == 1) == (n % 2 != 1)
  {
  }

  /** Collection is on exactly after an odd number of separator lines. */
  lemma {:induction false} ScanParity(lines: seq<string>, sep: string)
    ensures Scan(Start, lines, sep).inBlock <==> Separators(lines, sep) % 2 == 1
  {
    if |lines| > 0 {
      var prefix := lines[..|lines| - 1];
      ScanParity(prefix, sep);
      StepCollects(Scan(Start, prefix, sep), lines[|lines| - 1], sep);
      var n := Separators(prefix, sep);
      if IsSeparator(lines[|lines| - 1], sep) {
        assert Separators(lines, sep) == n + 1;
        Parity(n);
      } else {
        assert Separators(lines, sep) == n;
      }
    }
  }

  lemma {:induction false} ScanCollects(lines: seq<string>, sep: string)
    ensures Collected(Scan(Start, lines, sep)) == Kept(lines, sep)
  {
    if |lines| > 0 {
      var prefix := lines[..|lines| - 1];
      ScanCollects(prefix, sep);
      ScanParity(prefix, sep);
      StepCollects(Scan(Start, prefix, sep), lines[|lines| - 1], sep);
    }
  }

  /** Concatenated, the blocks are exactly the kept lines of the escaped
      text: a separator line toggles collection, and only non-empty trimmed
      lines seen while collecting are kept. */
  lemma BlocksCollect(cleaned: string)
    ensures Flatten(BlockLines(cleaned)) == Kept(Split(EscapeSpecialChars(cleaned)), Separator)
  {
    var st := Scan(Start, Split(EscapeSpecialChars(cleaned)), Separator);
    ScanCollects(Split(EscapeSpecialChars(cleaned)), Separator);
    if |st.current| > 0 {
      FlattenSnoc(st.blocks, st.current);
    } else {
      assert Collected(st) == Flatten(st.blocks);
    }
  }

  /** A separator line closes a non-empty open block and ends collection;
      otherwise it only toggles collection. */
  lemma SeparatorRule(st: BlockState, raw: string, sep: string)
    requires Inv(st, sep) && IsSeparator(raw, sep)
    ensures |st.current| > 0 ==> Step(st, raw, sep) == BlockState(st.blocks + [st.current], [], false)
    ensures |st.current| == 0 ==> Step(st, raw, sep) == st.(inBlock := !st.inBlock)
  {
  }

  // ---------------------------------------------------------------------
  // The loop.

  /** The body of the loop of `extractBlocks` for one line: the variables
      `blocks`, `currentBlock` and `inBlock` stand for the state `st` before
      the line and for `Step(st, raw, Separator)` after it. */
  method BlockLine(ghost st: BlockState, blocks0: seq<string>, current0: seq<string>, inBlock0: bool, raw: string)
    returns (blocks: seq<string>, currentBlock: seq<string>, inBlock: bool)
    requires blocks0 == JoinAll(st.blocks) && current0 == st.current && inBlock0 == st.inBlock
    ensures blocks == JoinAll(Step(st, raw, Separator).blocks)
    ensures currentBlock == Step(st, raw, Separator).current && inBlock == Step(st, raw, Separator).inBlock
  {
    blocks, currentBlock, inBlock := blocks0, current0, inBlock0;
    var line := Strip(raw, JavaScript);
    if line == Separator {
      if inBlock && |currentBlock| > 0 {
        JoinAllSnoc(st.blocks, currentBlock);
        blocks := blocks + [Join(currentBlock)];
        currentBlock := [];
      }
      inBlock := !inBlock;
    } else if inBlock {
      if |line| > 0 {
        currentBlock := currentBlock + [line];
      }
    }
  }

  /** The loop of `extractBlocks` over the lines of the preprocessed text,
      and its final flush. */
  method CutBlocks(content: string) returns (blocks: seq<string>)
    ensures blocks == JoinAll(Finish(Scan(Start, Split(content), Separator)))
  {
    var lines := Split(content);
    blocks := [];
    var currentBlock: seq<string> := [];
    var inBlock := false;
    ghost var st := Start;
    for i := 0 to |lines|
      invariant st == Scan(Start, lines[..i], Separator)
      invariant blocks == JoinAll(st.blocks) && currentBlock == st.current && inBlock == st.inBlock
    {
      assert lines[..i + 1][..i] == lines[..i];
      blocks, currentBlock, inBlock := BlockLine(st, blocks, currentBlock, inBlock, lines[i]);
      st := Step(st, lines[i], Separator);
    }
    assert lines[..|lines|] == lines;
    if |currentBlock| > 0 {
      JoinAllSnoc(st.blocks, currentBlock);
      blocks := blocks + [Join(currentBlock)];
    }
  }

  /** `extractBlocks`, for the text `cleaned` left by the script/style
      removal and line-break normalisation of `preprocessContent`. */
  method ExtractBlocks(cleaned: string) returns (blocks: seq<string>)
    ensures blocks == Blocks(cleaned)
    ensures forall k :: 0 <= k < |blocks| ==> GoodBlock(Split(blocks[k]), Separator)
  {
    var content := EscapeSpecialChars(cleaned);
    blocks := CutBlocks(content);
    BlocksSplit(cleaned);
    BlocksWellFormed(cleaned);
  }
}
