/** `EntityParser.extract_entity_blocks` of parse_entities.py: split the text
    into entity blocks, where a blank line closes the open block only while
    the heuristic entity depth is zero. */
module Segmenter {
  import opened Strings
  import opened NegativeSpace

  /** The loop's variables: `blocks` (each still as its list of lines),
      `current_block`, `in_entity`, `entity_depth`. */
  datatype SegState = SegState(blocks: seq<seq<string>>, current: seq<string>, inEntity: bool, depth: nat)

  const Init := SegState([], [], false, 0)

  /** One iteration of the loop over the lines. */
  function Step(st: SegState, line: string): SegState {
    if IsBlank(line) then
      if |st.current| > 0 && st.depth == 0 then SegState(st.blocks + [st.current], [], false, st.depth)
      else st
    else
      var st1 :=
        if Contains(line, "<Entity:") then st.(inEntity := true, depth := st.depth + 1)
        else if st.inEntity && Contains(line, "└──") && !(Contains(line, "<Entity:") || Contains(line, "<Morphism:")) then
          st.(depth := if st.depth > 0 then st.depth - 1 else 0)   // max(0, entity_depth - 1)
        else st;                                                    // includes the `├──` branch, a no-op
      if st1.inEntity then st1.(current := st1.current + [line]) else st1
  }

  /** The state after the loop has consumed `lines`, starting from `st`. */
  function ScanFrom(st: SegState, lines: seq<string>): SegState {
    if |lines| == 0 then st else Step(ScanFrom(st, lines[..|lines| - 1]), lines[|lines| - 1])
  }

  /** The final `if current_block:` flush. */
  function Finish(st: SegState): seq<seq<string>> {
    if |st.current| > 0 then st.blocks + [st.current] else st.blocks
  }

  /** The value `extract_entity_blocks` returns. */
  function EntityBlocks(content: string): seq<string> {
    JoinAll(Finish(ScanFrom(Init, Split(content))))
  }

  /** A block as a list of lines: non-empty, headed by an `<Entity:` line, no
      whitespace-only line, no line break inside a line. */
  predicate GoodBlock(b: seq<string>) {
    && |b| > 0
    && Contains(b[0], "<Entity:")
    && (forall k :: 0 <= k < |b| ==> !IsBlank(b[k]))
    && NoNewline(b)
  }

  /** The invariant the loop keeps. */
  predicate Inv(st: SegState) {
    && (st.inEntity <==> |st.current| > 0)
    && (!st.inEntity ==> st.depth == 0)
    && (|st.current| > 0 ==> GoodBlock(st.current))
    && (forall k :: 0 <= k < |st.blocks| ==> GoodBlock(st.blocks[k]))
  }

  lemma StepInv(st: SegState, line: string)
    requires Inv(st) && '\n' !in line
    ensures Inv(Step(st, line))
  {
    var st' := Step(st, line);
    if !IsBlank(line) && |st'.current| > 0 {
      assert st'.current[..|st'.current|] == st'.current;
      if |st.current| > 0 {
        assert st'.current == st.current + [line] || st'.current == st.current;
      } else {
        assert st'.current == [line];
      }
    }
  }

  lemma {:induction false} ScanInv(st: SegState, lines: seq<string>)
    requires Inv(st) && NoNewline(lines)
    ensures Inv(ScanFrom(st, lines))
  {
    if |lines| > 0 {
      ScanInv(st, lines[..|lines| - 1]);
      StepInv(ScanFrom(st, lines[..|lines| - 1]), lines[|lines| - 1]);
    }
  }

  /** Every block `extract_entity_blocks` returns splits back into a
      well-formed list of lines: non-empty, starting with an `<Entity:`
      line, with no whitespace-only line. */
  lemma BlocksWellFormed(content: string)
    ensures forall k :: 0 <= k < |EntityBlocks(content)| ==>
      GoodBlock(Split(EntityBlocks(content)[k])) && Split(EntityBlocks(content)[k]) == Finish(ScanFrom(Init, Split(content)))[k]
  {
    var st := ScanFrom(Init, Split(content));
    ScanInv(Init, Split(content));
    var bs := Finish(st);
    forall k | 0 <= k < |bs| ensures GoodBlock(bs[k]) && Split(Join(bs[k])) == bs[k] {
      SplitJoin(bs[k]);
    }
  }

  // ---------------------------------------------------------------------
  // The blocks hold unmodified input lines in input order.

  /** `a` is a subsequence of `b`. */
  predicate Subseq(a: seq<string>, b: seq<string>)
    decreases |b|
  {
    if |a| == 0 then true
    else if |b| == 0 then false
    else (a[|a| - 1] == b[|b| - 1] && Subseq(a[..|a| - 1], b[..|b| - 1])) || Subseq(a, b[..|b| - 1])
  }

  function Collected(st: SegState): seq<string> {
    Flatten(st.blocks) + st.current
  }

  lemma SubseqSkip(a: seq<string>, b: seq<string>, x: string)
    requires Subseq(a, b)
    ensures Subseq(a, b + [x])
  {
    assert (b + [x])[..|b|] == b;
  }

  lemma SubseqTake(a: seq<string>, b: seq<string>, x: string)
    requires Subseq(a, b)
    ensures Subseq(a + [x], b + [x])
  {
    assert (b + [x])[..|b|] == b;
    assert (a + [x])[..|a|] == a;
  }

  /** One line either adds itself to the collected lines or adds nothing. */
  lemma CollectedStep(st: SegState, x: string)
    ensures Collected(Step(st, x)) == Collected(st) || Collected(Step(st, x)) == Collected(st) + [x]
  {
    var st' := Step(st, x);
    if IsBlank(x) {
      if |st.current| > 0 && st.depth == 0 {
        assert st'.blocks[..|st'.blocks| - 1] == st.blocks;
        assert Flatten(st'.blocks) == Flatten(st.blocks) + st.current;
        assert Collected(st') == Flatten(st'.blocks) + [];
      }
    } else if st'.current != st.current {
      assert st'.current == st.current + [x] && st'.blocks == st.blocks;
      assert Collected(st') == Flatten(st.blocks) + (st.current + [x]);
    }
  }

  lemma {:induction false} ScanInOrder(lines: seq<string>)
    ensures Subseq(Collected(ScanFrom(Init, lines)), lines)
  {
    if |lines| > 0 {
      var prefix := lines[..|lines| - 1];
      var x := lines[|lines| - 1];
      assert lines == prefix + [x];
      ScanInOrder(prefix);
      var st := ScanFrom(Init, prefix);
      assert ScanFrom(Init, lines) == Step(st, x);
      CollectedStep(st, x);
      if Collected(Step(st, x)) == Collected(st) {
        SubseqSkip(Collected(st), prefix, x);
      } else {
        SubseqTake(Collected(st), prefix, x);
      }
    }
  }

  /** Concatenated, the blocks are a subsequence of the input lines: every
      block line is an unmodified input line, and input order is kept. */
  lemma BlocksInOrder(content: string)
    ensures Subseq(Flatten(Finish(ScanFrom(Init, Split(content)))), Split(content))
  {
    var st := ScanFrom(Init, Split(content));
    ScanInOrder(Split(content));
    if |st.current| > 0 {
      var bs := st.blocks + [st.current];
      assert bs[..|bs| - 1] == st.blocks;
      assert Flatten(bs) == Collected(st);
    } else {
      assert Flatten(st.blocks) == Collected(st);
    }
  }

  // ---------------------------------------------------------------------
  // The depth rule.

  /** A blank line emits the open block exactly when the entity depth is
      zero; while the depth is positive the blank line is dropped and the
      block continues.  The depth itself is unchanged. */
  lemma BlankLineRule(st: SegState, line: string)
    requires Inv(st) && IsBlank(line)
    ensures Step(st, line).depth == st.depth
    ensures st.depth == 0 ==>
      && Step(st, line).current == [] && !Step(st, line).inEntity
      && Step(st, line).blocks == st.blocks + (if |st.current| > 0 then [st.current] else [])
    ensures st.depth > 0 ==> Step(st, line) == st && |st.current| > 0
  {
  }

  /** After a block has been closed, the lines up to the next `<Entity:` line
      are discarded: they change nothing. */
  lemma {:induction false} DiscardUntilEntity(st: SegState, lines: seq<string>)
    requires Inv(st) && !st.inEntity
    requires forall k :: 0 <= k < |lines| ==> !Contains(lines[k], "<Entity:")
    ensures ScanFrom(st, lines) == st
  {
    if |lines| > 0 {
      DiscardUntilEntity(st, lines[..|lines| - 1]);
    }
  }

  /** An `<Entity:` line always belongs to the open block, opening one if
      none is open, and raises the depth by one. */
  lemma EntityLineOpens(st: SegState, line: string)
    requires Inv(st) && '\n' !in line && Contains(line, "<Entity:")
    ensures Step(st, line).current == st.current + [line]
    ensures Step(st, line).depth == st.depth + 1 && Step(st, line).blocks == st.blocks
  {
    assert !IsBlank(line) by {
      var i := Find(line, "<Entity:", 0).value;
      assert line[i] == "<Entity:"[0];
    }
  }

  /** Depth rises on every `<Entity:` line and falls only on a `└──` line, so
      a blank line after an entity header that no `└──` line has closed does
      not end the block: the next header joins the same block. */
  lemma BlankKeptInsideEntity(a: string, b: string)
    requires '\n' !in a && '\n' !in b
    requires Contains(a, "<Entity:") && Contains(b, "<Entity:")
    ensures EntityBlocks(a + "\n\n" + b) == [a + "\n" + b]
  {
    SplitBlankBetween(a, b);
    ScanHeadersAroundBlank(a, b);
    assert Join([a, b]) == a + "\n" + b;
  }

  lemma SplitBlankBetween(a: string, b: string)
    requires '\n' !in a && '\n' !in b
    ensures Split(a + "\n\n" + b) == [a, "", b]
  {
    assert a + "\n\n" + b == a + "\n" + ("" + "\n" + b);
    SplitPrefix(a, "" + "\n" + b);
    SplitPrefix("", b);
    SplitNoNewline(b);
  }

  lemma ScanHeadersAroundBlank(a: string, b: string)
    requires '\n' !in a && '\n' !in b
    requires Contains(a, "<Entity:") && Contains(b, "<Entity:")
    ensures ScanFrom(Init, [a, "", b]) == SegState([], [a, b], true, 2)
  {
    EntityLineOpens(Init, a);
    var st1 := Step(Init, a);
    assert st1 == SegState([], [a], true, 1);
    assert IsBlank("");
    var st2 := Step(st1, "");
    assert st2 == st1;
    EntityLineOpens(st2, b);
    assert [a][..0] == [] && [a, ""][..1] == [a] && [a, "", b][..2] == [a, ""];
    assert ScanFrom(Init, [a]) == st1;
    assert ScanFrom(Init, [a, ""]) == st2;
  }

  /** The body of the loop of `extract_entity_blocks` for one line: the loop
      variables `blocks`, `current`, `inEntity` and `entityDepth` stand for
      the state `st` before the line and for `Step(st, line)` after it. */
  method SegmentLine(ghost st: SegState, blocks0: seq<string>, current0: seq<string>, inEntity0: bool, depth0: nat, line: string)
    returns (blocks: seq<string>, current: seq<string>, inEntity: bool, entityDepth: nat)
    requires blocks0 == JoinAll(st.blocks) && current0 == st.current
    requires inEntity0 == st.inEntity && depth0 == st.depth
    ensures blocks == JoinAll(Step(st, line).blocks) && current == Step(st, line).current
    ensures inEntity == Step(st, line).inEntity && entityDepth == Step(st, line).depth
  {
    blocks, current, inEntity, entityDepth := blocks0, current0, inEntity0, depth0;
    if Strip(line, Python) == [] {
      if |current| > 0 && entityDepth == 0 {
        JoinAllSnoc(st.blocks, current);
        blocks := blocks + [Join(current)];
        current := [];
        inEntity := false;
      }
    } else {
      if Contains(line, "<Entity:") {
        inEntity := true;
        entityDepth := entityDepth + 1;
      } else if inEntity {
        if Contains(line, "└──") && !(Contains(line, "<Entity:") || Contains(line, "<Morphism:")) {
          entityDepth := if entityDepth > 0 then entityDepth - 1 else 0;
        }
      }
      if inEntity {
        current := current + [line];
      }
    }
  }

  /** The loop of `extract_entity_blocks`, proved to compute `EntityBlocks`. */
  method ExtractEntityBlocks(content: string) returns (blocks: seq<string>)
    ensures blocks == EntityBlocks(content)
    ensures forall k :: 0 <= k < |blocks| ==> GoodBlock(Split(blocks[k]))
  {
    var lines := Split(content);
    blocks := [];
    var current: seq<string> := [];
    var inEntity := false;
    var entityDepth: nat := 0;
    ghost var st := Init;
    for i := 0 to |lines|
      invariant st == ScanFrom(Init, lines[..i])
      invariant blocks == JoinAll(st.blocks) && current == st.current
      invariant inEntity == st.inEntity && entityDepth == st.depth
    {
      assert lines[..i + 1][..i] == lines[..i];
      blocks, current, inEntity, entityDepth := SegmentLine(st, blocks, current, inEntity, entityDepth, lines[i]);
      st := Step(st, lines[i]);
    }
    assert lines[..|lines|] == lines;
    if |current| > 0 {
      JoinAllSnoc(st.blocks, current);
      blocks := blocks + [Join(current)];
    }
    BlocksWellFormed(content);
  }
}
