/** `EntityParser.find_negative_space` of parse_entities.py: the runs of
    whitespace-only lines that separate entities. */
module NegativeSpace {
  import opened Strings

  /** `not line.strip()`. */
  predicate IsBlank(line: string) {
    AllSpace(line, Python)
  }

  /** `not line.strip()` holds exactly for whitespace-only lines. */
  lemma StripBlank(line: string)
    ensures (Strip(line, Python) == []) == IsBlank(line)
  {
  }

  /** Line `i` lies in one of the reported half-open runs. */
  ghost predicate Covered(spaces: seq<(nat, nat)>, i: nat) {
    exists k :: 0 <= k < |spaces| && spaces[k].0 <= i < spaces[k].1
  }

  /** Some line strictly between `i` and `j` holds text. */
  ghost predicate TextBetween(lines: seq<string>, i: nat, j: nat) {
    exists m :: i < m < j && m < |lines| && !IsBlank(lines[m])
  }

  /** A maximal blank run `[start, end)` closed by the non-blank line `end`. */
  ghost predicate IsRun(lines: seq<string>, start: nat, end: nat) {
    && start < end < |lines|
    && (forall i :: start <= i < end ==> IsBlank(lines[i]))
    && !IsBlank(lines[end])
    && (start == 0 || !IsBlank(lines[start - 1]))
  }

  /** What `find_negative_space` knows after scanning `lines[..i]`: `spaces`
      holds the closed runs so far and `start` the run still open. */
  ghost predicate Scanned(lines: seq<string>, i: nat, spaces: seq<(nat, nat)>, start: Option<nat>) {
    && i <= |lines|
    && (forall k :: 0 <= k < |spaces| ==> IsRun(lines, spaces[k].0, spaces[k].1) && spaces[k].1 < i)
    && (forall k :: 0 <= k < |spaces| - 1 ==> spaces[k].1 < spaces[k + 1].0)
    && (start.Some? <==> i > 0 && IsBlank(lines[i - 1]))
    && (start.Some? ==> OpenRun(lines, i, spaces, start.value))
    && (forall j :: 0 <= j < i ==> (Covered(spaces, j) <==> IsBlank(lines[j]) && TextBetween(lines, j, i)))
    && (forall j :: i <= j ==> !Covered(spaces, j))
  }

  ghost predicate OpenRun(lines: seq<string>, i: nat, spaces: seq<(nat, nat)>, s: nat) {
    && s < i <= |lines|
    && (forall m :: s <= m < i ==> IsBlank(lines[m]))
    && (s == 0 || !IsBlank(lines[s - 1]))
    && (forall k :: 0 <= k < |spaces| ==> spaces[k].1 < s)
  }

  lemma StepBlank(lines: seq<string>, i: nat, spaces: seq<(nat, nat)>, start: Option<nat>)
    requires Scanned(lines, i, spaces, start) && i < |lines| && IsBlank(lines[i])
    ensures Scanned(lines, i + 1, spaces, if start.None? then Some(i) else start)
  {
    forall j | 0 <= j < i + 1
      ensures Covered(spaces, j) <==> IsBlank(lines[j]) && TextBetween(lines, j, i + 1)
    {
      if j < i && TextBetween(lines, j, i + 1) {
        var m :| j < m < i + 1 && m < |lines| && !IsBlank(lines[m]);
        assert TextBetween(lines, j, i);
      }
    }
  }

  lemma CoveredAppend(spaces: seq<(nat, nat)>, r: (nat, nat), j: nat)
    requires Covered(spaces + [r], j) && !(r.0 <= j < r.1)
    ensures Covered(spaces, j)
  {
    var k :| 0 <= k < |spaces + [r]| && (spaces + [r])[k].0 <= j < (spaces + [r])[k].1;
    assert k < |spaces| && (spaces + [r])[k] == spaces[k];
  }

  lemma StepCloseBefore(lines: seq<string>, i: nat, spaces: seq<(nat, nat)>, s: nat, j: nat)
    requires Scanned(lines, i, spaces, Some(s)) && i < |lines| && !IsBlank(lines[i]) && j < s
    ensures Covered(spaces + [(s, i)], j) <==> IsBlank(lines[j]) && TextBetween(lines, j, i + 1)
  {
    var spaces' := spaces + [(s, i)];
    if Covered(spaces', j) {
      CoveredAppend(spaces, (s, i), j);
    }
    if IsBlank(lines[j]) && TextBetween(lines, j, i + 1) {
      assert 0 < s && !IsBlank(lines[s - 1]);
      assert TextBetween(lines, j, i) by { assert j < s - 1; }
      var k :| 0 <= k < |spaces| && spaces[k].0 <= j < spaces[k].1;
      assert spaces'[k] == spaces[k];
    }
  }

  lemma StepCloseAfter(lines: seq<string>, i: nat, spaces: seq<(nat, nat)>, s: nat, j: nat)
    requires Scanned(lines, i, spaces, Some(s)) && i < |lines| && i <= j
    ensures !Covered(spaces + [(s, i)], j)
  {
    var spaces' := spaces + [(s, i)];
    forall k | 0 <= k < |spaces'| ensures !(spaces'[k].0 <= j < spaces'[k].1) {
      if k < |spaces| {
        assert spaces'[k] == spaces[k];
        assert !(spaces[k].0 <= j < spaces[k].1);
      }
    }
  }

  lemma StepClose(lines: seq<string>, i: nat, spaces: seq<(nat, nat)>, s: nat)
    requires Scanned(lines, i, spaces, Some(s)) && i < |lines| && !IsBlank(lines[i])
    ensures Scanned(lines, i + 1, spaces + [(s, i)], None)
  {
    var spaces' := spaces + [(s, i)];
    forall j | 0 <= j < i + 1
      ensures Covered(spaces', j) <==> IsBlank(lines[j]) && TextBetween(lines, j, i + 1)
    {
      if s <= j < i {
        assert spaces'[|spaces|].0 <= j < spaces'[|spaces|].1;
        assert TextBetween(lines, j, i + 1);
      } else if j < s {
        StepCloseBefore(lines, i, spaces, s, j);
      } else {
        StepCloseAfter(lines, i, spaces, s, j);
      }
    }
    forall j | i + 1 <= j ensures !Covered(spaces', j) {
      StepCloseAfter(lines, i, spaces, s, j);
    }
  }

  lemma StepText(lines: seq<string>, i: nat, spaces: seq<(nat, nat)>)
    requires Scanned(lines, i, spaces, None) && i < |lines| && !IsBlank(lines[i])
    ensures Scanned(lines, i + 1, spaces, None)
  {
    forall j | 0 <= j < i + 1
      ensures Covered(spaces, j) <==> IsBlank(lines[j]) && TextBetween(lines, j, i + 1)
    {
      if j < i {
        assert TextBetween(lines, j, i + 1);
      }
      if j + 1 < i {
        assert TextBetween(lines, j, i) by { assert !IsBlank(lines[i - 1]); }
      }
    }
  }

  /** The guarantees of `find_negative_space` about `lines`. */
  ghost predicate NegativeSpaceOf(lines: seq<string>, spaces: seq<(nat, nat)>) {
    && (forall k :: 0 <= k < |spaces| ==> IsRun(lines, spaces[k].0, spaces[k].1))
    && (forall k :: 0 <= k < |spaces| - 1 ==> spaces[k].1 < spaces[k + 1].0)
    && (forall i :: 0 <= i < |lines| ==> (Covered(spaces, i) <==> IsBlank(lines[i]) && TextBetween(lines, i, |lines|)))
  }

  lemma ScannedAll(lines: seq<string>, spaces: seq<(nat, nat)>, start: Option<nat>)
    requires Scanned(lines, |lines|, spaces, start)
    ensures NegativeSpaceOf(lines, spaces)
  {
  }

  /** The body of the loop of `find_negative_space` for line `i`: a blank
      line opens a run unless one is open, a text line closes the open one. */
  method ScanLine(lines: seq<string>, i: nat, spaces0: seq<(nat, nat)>, start0: Option<nat>)
    returns (spaces: seq<(nat, nat)>, start: Option<nat>)
    requires Scanned(lines, i, spaces0, start0) && i < |lines|
    ensures Scanned(lines, i + 1, spaces, start)
  {
    spaces, start := spaces0, start0;
    var line := lines[i];
    var blank := Strip(line, Python) == [];
    StripBlank(line);
    if blank {
      StepBlank(lines, i, spaces, start);
      if start.None? {
        start := Some(i);
      }
    } else if start.Some? {
      StepClose(lines, i, spaces, start.value);
      spaces := spaces + [(start.value, i)];
      start := None;
    } else {
      StepText(lines, i, spaces);
    }
  }

  /** Every reported pair `(start, end)` is a maximal blank run closed by the
      text line `end`; the pairs are increasing and disjoint; and a line is
      covered exactly when it is blank and some later line holds text, so a
      blank run that reaches the end of the text is never reported. */
  method FindNegativeSpace(content: string) returns (spaces: seq<(nat, nat)>)
    ensures NegativeSpaceOf(Split(content), spaces)
  {
    var lines := Split(content);
    spaces := [];
    var start: Option<nat> := None;
    var i := 0;
    while i < |lines|
      invariant Scanned(lines, i, spaces, start)
    {
      spaces, start := ScanLine(lines, i, spaces, start);
      i := i + 1;
    }
    ScannedAll(lines, spaces, start);
  }
}
