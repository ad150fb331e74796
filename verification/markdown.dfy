/** `normalizeMarkdown` of the chapter view: every single line break
    between two non-blank lines becomes a paragraph break, by inserting an
    empty line between each adjacent pair of non-blank lines.

    The line-level transformation is stated for any blank-line test
    `blank`; the application's test is `IsBlank` (`line.trim() === ''`),
    and the only fact the properties need of it is that the empty line is
    blank. */
module MarkdownText {
  import opened Strings

  /** A line is blank when it is empty after `trim()`, that is, when it
      consists of white space only. */
  predicate IsBlank(line: string) {
    AllWhiteSpace(line)
  }

  lemma IsBlankIsTrimEmpty(line: string)
    ensures IsBlank(line) <==> Trim(line) == ""
  {
    TrimEmptyIff(line);
  }

  /** Lines `j` and `j + 1` both exist and are both non-blank. */
  predicate NonBlankPair(lines: seq<string>, j: int, blank: string -> bool) {
    0 <= j && j + 1 < |lines| && !blank(lines[j]) && !blank(lines[j + 1])
  }

  /** No two adjacent lines are both non-blank. */
  predicate Separated(lines: seq<string>, blank: string -> bool) {
    forall j :: 0 <= j < |lines| - 1 ==> !NonBlankPair(lines, j, blank)
  }

  /** The loop of `normalizeMarkdown`: line `i` is pushed, followed by an
      empty line when it and line `i + 1` are both non-blank. */
  function NormalizeLines(lines: seq<string>, blank: string -> bool): (r: seq<string>)
    ensures |lines| > 0 ==> |r| > 0 && r[0] == lines[0]
    ensures |lines| == 0 ==> r == []
  {
    if |lines| <= 1 then lines
    else if NonBlankPair(lines, 0, blank) then [lines[0], ""] + NormalizeLines(lines[1..], blank)
    else [lines[0]] + NormalizeLines(lines[1..], blank)
  }

  /** What `NormalizeLines` emits for the first of several lines. */
  function Head(lines: seq<string>, blank: string -> bool): seq<string>
    requires |lines| >= 1
  {
    if NonBlankPair(lines, 0, blank) then [lines[0], ""] else [lines[0]]
  }

  lemma NormalizeUnfold(lines: seq<string>, blank: string -> bool)
    requires |lines| > 1
    ensures NormalizeLines(lines, blank) == Head(lines, blank) + NormalizeLines(lines[1..], blank)
  {
  }

  /** The output holds no two adjacent non-blank lines. */
  lemma {:induction false} NormalizeLinesSeparates(lines: seq<string>, blank: string -> bool)
    requires blank("")
    ensures Separated(NormalizeLines(lines, blank), blank)
    decreases |lines|
  {
    if |lines| > 1 {
      var rest := NormalizeLines(lines[1..], blank);
      NormalizeLinesSeparates(lines[1..], blank);
      NormalizeUnfold(lines, blank);
      if NonBlankPair(lines, 0, blank) {
        SeparatedPrepend("", rest, blank);
        SeparatedPrepend(lines[0], [""] + rest, blank);
        assert [lines[0], ""] + rest == [lines[0]] + ([""] + rest);
      } else {
        SeparatedPrepend(lines[0], rest, blank);
      }
    }
  }

  /** Every output line is an inserted empty line or a line of the input. */
  lemma {:induction false} NormalizeLinesDrawsFromInput(lines: seq<string>, blank: string -> bool)
    ensures var r := NormalizeLines(lines, blank);
      forall i :: 0 <= i < |r| ==> r[i] == "" || r[i] in lines
    decreases |lines|
  {
    if |lines| > 1 {
      var rest := NormalizeLines(lines[1..], blank);
      NormalizeLinesDrawsFromInput(lines[1..], blank);
      NormalizeUnfold(lines, blank);
      var r := NormalizeLines(lines, blank);
      var h := Head(lines, blank);
      forall i | 0 <= i < |r|
        ensures r[i] == "" || r[i] in lines
      {
        if i >= |h| {
          assert r[i] == rest[i - |h|];
          assert rest[i - |h|] in lines[1..] ==> rest[i - |h|] in lines;
        } else {
          assert r[i] == h[i];
        }
      }
    }
  }

  lemma SeparatedPrepend(x: string, rest: seq<string>, blank: string -> bool)
    requires Separated(rest, blank)
    requires |rest| == 0 || blank(x) || blank(rest[0])
    ensures Separated([x] + rest, blank)
  {
    var r := [x] + rest;
    forall j | 1 <= j < |r| - 1
      ensures !NonBlankPair(r, j, blank)
    {
      assert !NonBlankPair(rest, j - 1, blank);
    }
  }

  /** `normalizeMarkdown(text)`: split on line feeds, transform, rejoin. */
  function NormalizeMarkdown(text: string): (r: string)
    ensures '\n' !in text ==> r == text
  {
    Join(NormalizeLines(Split(text, '\n'), IsBlank), '\n')
  }

  /** Number of empty lines inserted before original line `i`: one for each
      non-blank pair `(j, j + 1)` with `j < i`. */
  function InsertedBefore(lines: seq<string>, i: nat, blank: string -> bool): nat
    decreases i
  {
    if i == 0 then 0
    else InsertedBefore(lines, i - 1, blank) + (if NonBlankPair(lines, i - 1, blank) then 1 else 0)
  }

  lemma {:induction false} InsertedBeforeShift(lines: seq<string>, i: nat, blank: string -> bool)
    requires 1 <= i <= |lines|
    ensures InsertedBefore(lines, i, blank) ==
      InsertedBefore(lines[1..], i - 1, blank) + (if NonBlankPair(lines, 0, blank) then 1 else 0)
    decreases i
  {
    if i > 1 {
      InsertedBeforeShift(lines, i - 1, blank);
      assert NonBlankPair(lines, i - 1, blank) == NonBlankPair(lines[1..], i - 2, blank);
    }
  }

  /** Index in the output of original line `i`. */
  function Position(lines: seq<string>, i: nat, blank: string -> bool): nat {
    i + InsertedBefore(lines, i, blank)
  }

  /** Every original line is kept, in order, at its original index shifted
      by the empty lines inserted before it; each non-blank pair gets exactly
      one empty line between its two lines; and nothing else is added. */
  lemma {:induction false} NormalizeKeepsLinesInOrder(lines: seq<string>, blank: string -> bool)
    ensures var r := NormalizeLines(lines, blank);
      && |r| == |lines| + InsertedBefore(lines, |lines|, blank)
      && (forall i {:trigger Position(lines, i, blank)} :: 0 <= i < |lines| ==>
            Position(lines, i, blank) < |r| && r[Position(lines, i, blank)] == lines[i])
      && (forall i {:trigger Position(lines, i, blank)} :: NonBlankPair(lines, i, blank) ==>
            Position(lines, i, blank) + 1 < |r| && r[Position(lines, i, blank) + 1] == "")
    decreases |lines|
  {
    if |lines| == 1 {
      assert !NonBlankPair(lines, 0, blank);
    } else if |lines| > 1 {
      var tail := lines[1..];
      NormalizeKeepsLinesInOrder(tail, blank);
      InsertedBeforeShift(lines, |lines|, blank);
      NormalizeUnfold(lines, blank);
      forall i {:trigger Position(lines, i, blank)} | 1 <= i < |lines|
        ensures var r := NormalizeLines(lines, blank);
          && Position(lines, i, blank) < |r| && r[Position(lines, i, blank)] == lines[i]
          && (NonBlankPair(lines, i, blank) ==>
                Position(lines, i, blank) + 1 < |r| && r[Position(lines, i, blank) + 1] == "")
      {
        assert tail[i - 1] == lines[i];
        assert NonBlankPair(lines, i, blank) == NonBlankPair(tail, i - 1, blank);
        assert Position(tail, i - 1, blank) >= 0;
        ShiftedLine(lines, i, blank);
      }
    }
  }

  /** Inductive step of the lemma above: a line of the tail sits where the
      normalised tail has it, behind the head and its optional empty line. */
  lemma ShiftedLine(lines: seq<string>, i: nat, blank: string -> bool)
    requires 1 <= i < |lines|
    requires var t := NormalizeLines(lines[1..], blank);
      var p := Position(lines[1..], i - 1, blank);
      && p < |t| && t[p] == lines[i]
      && (NonBlankPair(lines[1..], i - 1, blank) ==> p + 1 < |t| && t[p + 1] == "")
    ensures var r := NormalizeLines(lines, blank);
      var p := Position(lines, i, blank);
      && p < |r| && r[p] == lines[i]
      && (NonBlankPair(lines, i, blank) ==> p + 1 < |r| && r[p + 1] == "")
  {
    var t := NormalizeLines(lines[1..], blank);
    var h := Head(lines, blank);
    NormalizeUnfold(lines, blank);
    PositionShift(lines, i, blank);
    assert NonBlankPair(lines, i, blank) ==> NonBlankPair(lines[1..], i - 1, blank) by {
      if NonBlankPair(lines, i, blank) {
        assert lines[1..][i] == lines[i + 1];
      }
    }
    ShiftCore(NormalizeLines(lines, blank), h, t, Position(lines[1..], i - 1, blank),
      lines[i], NonBlankPair(lines, i, blank));
  }

  /** Line `i` of the input sits behind the head's one or two lines and
      the tail's own inserted lines. */
  lemma PositionShift(lines: seq<string>, i: nat, blank: string -> bool)
    requires 1 <= i < |lines|
    ensures Position(lines, i, blank) == |Head(lines, blank)| + Position(lines[1..], i - 1, blank)
  {
    InsertedBeforeShift(lines, i, blank);
  }

  /** An element of `t` keeps its neighbour when `h` is put in front. */
  lemma ShiftCore(r: seq<string>, h: seq<string>, t: seq<string>, p: nat, x: string, gap: bool)
    requires r == h + t && p < |t| && t[p] == x
    requires gap ==> p + 1 < |t| && t[p + 1] == ""
    ensures |h| + p < |r| && r[|h| + p] == x
    ensures gap ==> |h| + p + 1 < |r| && r[|h| + p + 1] == ""
  {
  }

  /** Lines that are already separated pass through unchanged. */
  lemma {:induction false} NormalizeSeparatedIsIdentity(lines: seq<string>, blank: string -> bool)
    requires Separated(lines, blank)
    ensures NormalizeLines(lines, blank) == lines
    decreases |lines|
  {
    if |lines| > 1 {
      assert !NonBlankPair(lines, 0, blank);
      assert Separated(lines[1..], blank) by {
        forall j | 0 <= j < |lines| - 2
          ensures !NonBlankPair(lines[1..], j, blank)
        {
          assert !NonBlankPair(lines, j + 1, blank);
        }
      }
      NormalizeSeparatedIsIdentity(lines[1..], blank);
      assert lines == [lines[0]] + lines[1..];
    }
  }

  /** Normalising twice is normalising once (on lines). */
  lemma NormalizeLinesIdempotent(lines: seq<string>, blank: string -> bool)
    requires blank("")
    ensures NormalizeLines(NormalizeLines(lines, blank), blank) == NormalizeLines(lines, blank)
  {
    NormalizeLinesSeparates(lines, blank);
    NormalizeSeparatedIsIdentity(NormalizeLines(lines, blank), blank);
  }

  /** The normalised lines of a text are free of line feeds, so rejoining
      and splitting them again gives them back. */
  lemma NormalizedLinesResplit(text: string)
    ensures var r := NormalizeLines(Split(text, '\n'), IsBlank);
      Split(Join(r, '\n'), '\n') == r
  {
    var lines := Split(text, '\n');
    var r := NormalizeLines(lines, IsBlank);
    NormalizeLinesDrawsFromInput(lines, IsBlank);
    assert forall i :: 0 <= i < |NormalizeLines(lines, IsBlank)| ==> NormalizeLines(lines, IsBlank)[i] == "" || NormalizeLines(lines, IsBlank)[i] in lines;
    forall i | 0 <= i < |r|
      ensures '\n' !in r[i]
    {
      assert r[i] == "" || r[i] in lines;
      if r[i] != "" {
        var k :| 0 <= k < |lines| && lines[k] == r[i];
      }
    }
    SplitJoin(r, '\n');
  }

  /** Normalising twice is normalising once (on text). */
  lemma NormalizeMarkdownIdempotent(text: string)
    ensures NormalizeMarkdown(NormalizeMarkdown(text)) == NormalizeMarkdown(text)
  {
    NormalizedLinesResplit(text);
    assert IsBlank("");
    NormalizeLinesIdempotent(Split(text, '\n'), IsBlank);
  }

  /** The output text never holds two non-blank lines in a row. */
  lemma NormalizeMarkdownSeparates(text: string)
    ensures Separated(Split(NormalizeMarkdown(text), '\n'), IsBlank)
  {
    NormalizedLinesResplit(text);
    assert IsBlank("");
    NormalizeLinesSeparates(Split(text, '\n'), IsBlank);
  }
}
