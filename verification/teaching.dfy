/** `extractTeaching` of the chapter view: the teaching section of a
    transcript runs from the first occurrence of its marker heading up to,
    but not including, the line break before the next `### ` or `## `
    heading line (or to the end of the transcript). */
module TeachingExtract {
  import opened Wrappers
  import opened Strings

  /** The heading that opens the teaching section: `### ` followed by the
      six ideographs of "teaching of Master Hongyuan". */
  const TeachingMarker: string := "### \U{5F18}\U{6E90}\U{6CD5}\U{5E2B}\U{958B}\U{793A}"

  /** A line opens a new section when its trimmed text starts with `### `
      or `## `. */
  predicate IsHeadingLine(line: string) {
    var t := Trim(line);
    StartsWith(t, "### ") || StartsWith(t, "## ")
  }

  /** Index of the first line `isHeading` accepts, or `|lines|` when there
      is none. The scan below is stated for any heading test; the chapter
      view uses `IsHeadingLine`. */
  function FirstHeading(lines: seq<string>, isHeading: string -> bool): (i: nat)
    ensures i <= |lines|
    ensures i < |lines| ==> isHeading(lines[i])
    ensures forall j :: 0 <= j < i ==> !isHeading(lines[j])
  {
    if |lines| == 0 then 0
    else if isHeading(lines[0]) then 0
    else
      var i := 1 + FirstHeading(lines[1..], isHeading);
      assert forall j :: 1 <= j < |lines| ==> lines[1..][j - 1] == lines[j];
      i
  }

  /** The code's `endIdx` for the text `s` that follows the marker. */
  function TeachingEnd(s: string, isHeading: string -> bool): (e: nat)
    ensures e <= |s|
  {
    var lines := Split(s, '\n');
    var i := FirstHeading(lines, isHeading);
    if i < |lines| then
      JoinPrefixLength(s, i);
      |Join(lines[..i], '\n')|
    else |s|
  }

  /** `extractTeaching(transcript)`. */
  function ExtractTeaching(transcript: string): (r: string)
    ensures IndexOf(transcript, TeachingMarker).None? ==> r == ""
    ensures IndexOf(transcript, TeachingMarker).Some? ==> StartsWith(r, TeachingMarker)
  {
    ExtractSection(transcript, TeachingMarker, IsHeadingLine)
  }

  /** The code of `extractTeaching` for an arbitrary marker: from the first
      occurrence of `marker` up to the code's end position in what follows. */
  function ExtractSection(transcript: string, marker: string, isHeading: string -> bool): (r: string)
    ensures IndexOf(transcript, marker).None? ==> r == ""
    ensures IndexOf(transcript, marker).Some? ==>
      var p := IndexOf(transcript, marker).value;
      && StartsWith(r, marker)
      && p + |r| <= |transcript|
      && r == transcript[p..p + |r|]
  {
    match IndexOf(transcript, marker)
    case None => ""
    case Some(startIdx) =>
      var afterStart := transcript[startIdx + |marker|..];
      var endIdx := TeachingEnd(afterStart, isHeading);
      OccurrenceExtends(transcript, marker, startIdx, endIdx);
      marker + afterStart[..endIdx]
  }

  /** An occurrence of `m` at `p` followed by `e` more characters is the
      slice from `p` of length `|m| + e`. */
  lemma OccurrenceExtends(s: string, m: string, p: nat, e: nat)
    requires OccursAt(s, m, p) && p + |m| + e <= |s|
    ensures s[p..p + |m| + e] == m + s[p + |m|..][..e]
    ensures StartsWith(m + s[p + |m|..][..e], m)
  {
    assert s[p..p + |m| + e] == s[p..p + |m|] + s[p + |m|..p + |m| + e];
    assert (m + s[p + |m|..][..e])[..|m|] == m;
  }

  // ---------------------------------------------------------------------
  // Lines by position
  // ---------------------------------------------------------------------

  /** A line of `s` starts at `q`. */
  predicate LineStartAt(s: string, q: int) {
    0 <= q <= |s| && (q == 0 || s[q - 1] == '\n')
  }

  /** The line of `s` that starts at `q`, without its line break. */
  function LineFrom(s: string, q: nat): string
    requires q <= |s|
  {
    s[q..][..FirstIndexOfChar(s[q..], '\n')]
  }

  /** A heading line starts at `q`. */
  predicate HeadingAt(s: string, q: int, isHeading: string -> bool) {
    LineStartAt(s, q) && isHeading(LineFrom(s, q))
  }

  /** Where the teaching text that follows the marker ends: at the end when
      no line is a heading; at 0 when the rest of the marker's own line is a
      heading; otherwise just before the line break that precedes the first
      heading line. */
  predicate IsTeachingEnd(s: string, e: int, isHeading: string -> bool) {
    0 <= e <= |s| &&
    (|| (e == |s| && forall q :: 0 <= q <= |s| ==> !HeadingAt(s, q, isHeading))
     || (e == 0 && HeadingAt(s, 0, isHeading))
     || (e < |s| && s[e] == '\n' && HeadingAt(s, e + 1, isHeading)
           && forall q :: 0 <= q <= e ==> !HeadingAt(s, q, isHeading)))
  }

  lemma JoinPrefixLength(s: string, i: nat)
    requires i <= |Split(s, '\n')|
    ensures |Join(Split(s, '\n')[..i], '\n')| <= |s|
  {
    var lines := Split(s, '\n');
    JoinSplit(s, '\n');
    if i > 0 {
      JoinLength(lines[..i], '\n');
      JoinLength(lines, '\n');
      SumLengthsPrefix(lines, i);
    }
  }

  lemma {:induction false} SumLengthsPrefix(lines: seq<string>, i: nat)
    requires i <= |lines|
    ensures SumLengths(lines[..i]) <= SumLengths(lines)
  {
    if i > 0 {
      SumLengthsPrefix(lines[1..], i - 1);
      assert lines[..i][1..] == lines[1..][..i - 1];
    }
  }

  /** Line starts after the first line break of `s` are the line starts of
      the text behind it, shifted. */
  lemma LinesAfterBreak(s: string, k: nat, q: int)
    requires k < |s| && s[k] == '\n' && '\n' !in s[..k]
    requires 0 <= q <= |s|
    ensures 0 < q <= k ==> !LineStartAt(s, q)
    ensures q > k ==> (LineStartAt(s, q) <==> LineStartAt(s[k + 1..], q - k - 1))
    ensures q > k ==> LineFrom(s, q) == LineFrom(s[k + 1..], q - k - 1)
  {
    if 0 < q <= k {
      assert s[..k][q - 1] == s[q - 1];
    }
    if q > k {
      assert s[q..] == s[k + 1..][q - k - 1..];
      if q > k + 1 {
        assert s[q - 1] == s[k + 1..][q - k - 2];
      }
    }
  }

  /** `TeachingEnd` is the position described by `IsTeachingEnd`. */
  lemma TeachingEndCharacterized(s: string, isHeading: string -> bool)
    ensures IsTeachingEnd(s, TeachingEnd(s, isHeading), isHeading)
  {
    TeachingEndCases(s, isHeading);
  }

  predicate NoHeadingUpTo(s: string, e: int, isHeading: string -> bool) {
    forall q :: 0 <= q <= e ==> !HeadingAt(s, q, isHeading)
  }

  /** A text with no line break is one line, starting at 0. */
  lemma SingleLine(s: string)
    requires FirstIndexOfChar(s, '\n') == |s|
    ensures Split(s, '\n') == [s]
    ensures LineStartAt(s, 0) && LineFrom(s, 0) == s
    ensures forall q :: 0 < q <= |s| ==> !LineStartAt(s, q)
  {
    assert s[0..] == s;
    forall q | 0 < q <= |s|
      ensures !LineStartAt(s, q)
    {
      assert s[q - 1] != '\n';
    }
  }

  /** Splitting at the first line break: the first line, then the lines of
      the rest, whose heading positions are those of `s` shifted. */
  lemma FirstBreak(s: string, k: nat, isHeading: string -> bool)
    requires k == FirstIndexOfChar(s, '\n') && k < |s|
    ensures LineStartAt(s, 0) && LineFrom(s, 0) == s[..k]
    ensures forall q :: 0 < q <= k ==> !HeadingAt(s, q, isHeading)
    ensures forall q :: k < q <= |s| ==> (HeadingAt(s, q, isHeading) <==> HeadingAt(s[k + 1..], q - k - 1, isHeading))
  {
    assert s[0..] == s;
    assert '\n' !in s[..k];
    forall q | 0 <= q <= |s|
      ensures q > k ==> (HeadingAt(s, q, isHeading) <==> HeadingAt(s[k + 1..], q - k - 1, isHeading))
      ensures 0 < q <= k ==> !HeadingAt(s, q, isHeading)
    {
      LinesAfterBreak(s, k, q);
    }
  }

  lemma SplitAtBreak(s: string, k: nat)
    requires k == FirstIndexOfChar(s, '\n') && k < |s|
    ensures Split(s, '\n') == [s[..k]] + Split(s[k + 1..], '\n')
  {
  }

  /** How the code's end position after the first line relates to the end
      position in the rest of the text. */
  lemma EndAfterFirstLine(s: string, k: nat, isHeading: string -> bool)
    requires k == FirstIndexOfChar(s, '\n') && k < |s|
    requires !isHeading(s[..k])
    ensures var t := s[k + 1..];
      var tl := Split(t, '\n');
      var i' := FirstHeading(tl, isHeading);
      && FirstHeading(Split(s, '\n'), isHeading) == 1 + i'
      && (i' == |tl| ==> TeachingEnd(s, isHeading) == |s|)
      && (i' == 0 ==> TeachingEnd(s, isHeading) == k)
      && (0 < i' < |tl| ==> TeachingEnd(s, isHeading) == k + 1 + TeachingEnd(t, isHeading))
  {
    var t := s[k + 1..];
    var tl := Split(t, '\n');
    var lines := Split(s, '\n');
    assert lines == [s[..k]] + tl;
    assert lines[1..] == tl;
    var i' := FirstHeading(tl, isHeading);
    if 0 < i' < |tl| {
      assert lines[..1 + i'] == [s[..k]] + tl[..i'];
      assert Join(lines[..1 + i'], '\n') == s[..k] + ['\n'] + Join(tl[..i'], '\n');
    } else if i' == 0 {
      assert lines[..1] == [s[..k]];
    }
  }

  /** The three ways the code's scan can end, given the number of lines `n`,
      the index `i` of the first heading line and the end position `e`. */
  predicate EndShape(s: string, n: int, i: int, e: int, isHeading: string -> bool) {
    && (i == n ==> e == |s| && NoHeadingUpTo(s, |s|, isHeading))
    && (i == 0 ==> e == 0 && HeadingAt(s, 0, isHeading))
    && (0 < i < n ==>
          0 <= e < |s| && s[e] == '\n' && HeadingAt(s, e + 1, isHeading)
          && NoHeadingUpTo(s, e, isHeading))
  }

  predicate EndCases(s: string, isHeading: string -> bool) {
    var lines := Split(s, '\n');
    EndShape(s, |lines|, FirstHeading(lines, isHeading), TeachingEnd(s, isHeading), isHeading)
  }

  lemma {:induction false} TeachingEndCases(s: string, isHeading: string -> bool)
    ensures EndCases(s, isHeading)
    decreases |s|
  {
    var k := FirstIndexOfChar(s, '\n');
    if k == |s| {
      SingleLineCases(s, isHeading);
    } else if isHeading(s[..k]) {
      HeadingFirstCases(s, k, isHeading);
    } else {
      TeachingEndCases(s[k + 1..], isHeading);
      LaterLineCases(s, k, isHeading);
    }
  }

  lemma SingleLineCases(s: string, isHeading: string -> bool)
    requires FirstIndexOfChar(s, '\n') == |s|
    ensures EndCases(s, isHeading)
  {
    SingleLine(s);
  }

  lemma HeadingFirstCases(s: string, k: nat, isHeading: string -> bool)
    requires k == FirstIndexOfChar(s, '\n') && k < |s|
    requires isHeading(s[..k])
    ensures EndCases(s, isHeading)
  {
    FirstBreak(s, k, isHeading);
    SplitAtBreak(s, k);
    assert Split(s, '\n')[..0] == [];
  }

  lemma LaterLineCases(s: string, k: nat, isHeading: string -> bool)
    requires k == FirstIndexOfChar(s, '\n') && k < |s|
    requires !isHeading(s[..k])
    requires EndCases(s[k + 1..], isHeading)
    ensures EndCases(s, isHeading)
  {
    var t := s[k + 1..];
    SplitAtBreak(s, k);
    EndAfterFirstLine(s, k, isHeading);
    var tl := Split(t, '\n');
    var i := FirstHeading(tl, isHeading);
    var e := TeachingEnd(t, isHeading);
    EndShapeStep(s, k, |tl|, i, e, isHeading);
    var lines := Split(s, '\n');
    var e' := if i == |tl| then |s| else if i == 0 then k else k + 1 + e;
    assert |lines| == 1 + |tl|;
    assert FirstHeading(lines, isHeading) == 1 + i;
    assert TeachingEnd(s, isHeading) == e';
  }

  /** The shape for `s` follows from the shape for the text after its first
      line when that line is not a heading. */
  lemma EndShapeStep(s: string, k: nat, n: nat, i: nat, e: nat, isHeading: string -> bool)
    requires k == FirstIndexOfChar(s, '\n') && k < |s|
    requires !isHeading(s[..k])
    requires i <= n && e <= |s[k + 1..]|
    requires EndShape(s[k + 1..], n, i, e, isHeading)
    ensures EndShape(s, 1 + n, 1 + i,
      if i == n then |s| else if i == 0 then k else k + 1 + e, isHeading)
  {
    if 0 < i < n {
      StepMiddle(s, k, n, i, e, isHeading);
    } else if i == 0 && i < n {
      StepFirst(s, k, n, e, isHeading);
    } else {
      StepNone(s, k, n, e, isHeading);
    }
  }

  /** Step case: the tail's first heading is on a later line of the tail. */
  lemma StepMiddle(s: string, k: nat, n: nat, i: nat, e: nat, isHeading: string -> bool)
    requires k == FirstIndexOfChar(s, '\n') && k < |s|
    requires !isHeading(s[..k])
    requires 0 < i < n && e <= |s[k + 1..]|
    requires EndShape(s[k + 1..], n, i, e, isHeading)
    ensures EndShape(s, 1 + n, 1 + i, k + 1 + e, isHeading)
  {
    var t := s[k + 1..];
    assert s[k + 1 + e] == t[e];
    ShiftHeading(s, k, e + 1, isHeading);
    ShiftNoHeading(s, k, e, isHeading);
  }

  /** Step case: the tail starts with a heading. */
  lemma StepFirst(s: string, k: nat, n: nat, e: nat, isHeading: string -> bool)
    requires k == FirstIndexOfChar(s, '\n') && k < |s|
    requires !isHeading(s[..k])
    requires 0 < n && e <= |s[k + 1..]|
    requires EndShape(s[k + 1..], n, 0, e, isHeading)
    ensures EndShape(s, 1 + n, 1, k, isHeading)
  {
    ShiftHeading(s, k, 0, isHeading);
    ShiftNoHeading(s, k, -1, isHeading);
  }

  /** Step case: the tail has no heading. */
  lemma StepNone(s: string, k: nat, n: nat, e: nat, isHeading: string -> bool)
    requires k == FirstIndexOfChar(s, '\n') && k < |s|
    requires !isHeading(s[..k])
    requires e <= |s[k + 1..]|
    requires EndShape(s[k + 1..], n, n, e, isHeading)
    ensures EndShape(s, 1 + n, 1 + n, |s|, isHeading)
  {
    ShiftNoHeading(s, k, |s[k + 1..]|, isHeading);
  }

  /** A heading of the text after the first line break is a heading of the
      whole text, shifted. */
  lemma ShiftHeading(s: string, k: nat, q: nat, isHeading: string -> bool)
    requires k == FirstIndexOfChar(s, '\n') && k < |s|
    requires q <= |s[k + 1..]|
    ensures HeadingAt(s, k + 1 + q, isHeading) == HeadingAt(s[k + 1..], q, isHeading)
  {
    FirstBreak(s, k, isHeading);
  }

  /** No heading up to `e` in the text after the first line break, and a
      first line that is not a heading, means no heading up to `k + 1 + e`. */
  lemma ShiftNoHeading(s: string, k: nat, e: int, isHeading: string -> bool)
    requires k == FirstIndexOfChar(s, '\n') && k < |s|
    requires !isHeading(s[..k])
    requires -1 <= e <= |s[k + 1..]|
    requires NoHeadingUpTo(s[k + 1..], e, isHeading)
    ensures NoHeadingUpTo(s, k + 1 + e, isHeading)
  {
    var t := s[k + 1..];
    FirstBreak(s, k, isHeading);
    forall q | 0 <= q <= k + 1 + e
      ensures !HeadingAt(s, q, isHeading)
    {
      if q > k {
        assert HeadingAt(s, q, isHeading) == HeadingAt(t, q - k - 1, isHeading);
      }
    }
  }

  /** What the extraction returns, position by position: nothing when the
      marker is absent; otherwise the text from the marker's first
      occurrence to the end described by `IsTeachingEnd`. */
  predicate IsExtraction(transcript: string, marker: string, isHeading: string -> bool, r: string) {
    match IndexOf(transcript, marker)
    case None => r == ""
    case Some(p) => IsExtractionAt(transcript, marker, isHeading, p, r)
  }

  /** The text `r` starts with the marker at `p` and runs to the end
      described by `IsTeachingEnd`. */
  predicate IsExtractionAt(transcript: string, marker: string, isHeading: string -> bool, p: nat, r: string) {
    && StartsWith(r, marker)
    && p + |r| <= |transcript|
    && r == transcript[p..p + |r|]
    && IsTeachingEnd(transcript[p + |marker|..], |r| - |marker|, isHeading)
  }

  lemma ExtractSectionSpec(transcript: string, marker: string, isHeading: string -> bool)
    ensures IsExtraction(transcript, marker, isHeading, ExtractSection(transcript, marker, isHeading))
  {
    if IndexOf(transcript, marker).Some? {
      ExtractionAt(transcript, marker, isHeading, IndexOf(transcript, marker).value);
    }
  }

  /** The case of `ExtractSectionSpec` where the marker occurs first at `p`. */
  lemma ExtractionAt(transcript: string, marker: string, isHeading: string -> bool, p: nat)
    requires IndexOf(transcript, marker) == Some(p)
    ensures IsExtraction(transcript, marker, isHeading, ExtractSection(transcript, marker, isHeading))
  {
    ExtractedEnd(transcript, marker, isHeading, p);
    assert IsExtractionAt(transcript, marker, isHeading, p, ExtractSection(transcript, marker, isHeading));
  }

  /** Where the marker occurs first at `p`, the extraction runs to the end
      `IsTeachingEnd` describes in the text after the marker. */
  lemma ExtractedEnd(transcript: string, marker: string, isHeading: string -> bool, p: nat)
    requires IndexOf(transcript, marker) == Some(p)
    ensures p + |marker| <= |transcript|
    ensures IsTeachingEnd(transcript[p + |marker|..],
                          |ExtractSection(transcript, marker, isHeading)| - |marker|, isHeading)
  {
    var after := transcript[p + |marker|..];
    ExtractedLength(transcript, marker, isHeading, p);
    TeachingEndCharacterized(after, isHeading);
    SameEnd(after, TeachingEnd(after, isHeading),
            |ExtractSection(transcript, marker, isHeading)| - |marker|, isHeading);
  }

  lemma SameEnd(s: string, e: int, e': int, isHeading: string -> bool)
    requires IsTeachingEnd(s, e, isHeading) && e == e'
    ensures IsTeachingEnd(s, e', isHeading)
  {
  }

  /** Where the marker occurs first at `p`, the extraction is the marker
      plus the stretch of text `TeachingEnd` measures. */
  lemma ExtractedLength(transcript: string, marker: string, isHeading: string -> bool, p: nat)
    requires IndexOf(transcript, marker) == Some(p)
    ensures p + |marker| <= |transcript|
    ensures |ExtractSection(transcript, marker, isHeading)| - |marker|
            == TeachingEnd(transcript[p + |marker|..], isHeading)
  {
    var after := transcript[p + |marker|..];
    var r := ExtractSection(transcript, marker, isHeading);
    assert r == marker + after[..TeachingEnd(after, isHeading)];
  }

  /** `extractTeaching` is empty exactly when the transcript lacks the
      marker; otherwise it is the marker's first occurrence followed by the
      text up to the end described by `IsTeachingEnd`. */
  lemma ExtractTeachingSpec(transcript: string)
    ensures IsExtraction(transcript, TeachingMarker, IsHeadingLine, ExtractTeaching(transcript))
    ensures ExtractTeaching(transcript) == "" <==> IndexOf(transcript, TeachingMarker).None?
  {
    ExtractSectionSpec(transcript, TeachingMarker, IsHeadingLine);
  }
}
